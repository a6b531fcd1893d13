/**
 * What the guard of issue and renew achieves when calls interleave: two running jobs of one certificate mean
 * that the later call read the jobs table before the earlier one inserted its job.
 */
module AcmeOverlap {
  import opened Wrappers
  import opened TimeText
  import opened Calendar
  import opened Domain
  import opened Tables
  import opened AcmeMachine
  import opened JobConservation

  /** Of the certificate's jobs in the table, those inserted before step `readAt` are no longer running. */
  ghost predicate QuietBefore(s: State, cert: nat, readAt: nat) {
    forall j :: j in s.jobs.rows && IsAcmeJob(s.jobs.rows[j], cert) && j in s.history.admissions ==>
      var insertedAt := s.history.admissions[j].insertedAt;
      insertedAt != readAt && (insertedAt < readAt ==> !s.jobs.rows[j].status.Running?)
  }

  /** Of those, each failed one had started at least 15 minutes and one second before `now`. */
  ghost predicate CooledBefore(s: State, cert: nat, readAt: nat, now: int) {
    forall j :: j in s.jobs.rows && IsFailed(s.jobs.rows[j], cert) && j in s.history.admissions ==>
      var a := s.history.admissions[j];
      a.insertedAt < readAt ==> FloorSecond(a.started) + COOLDOWN + SECOND <= now
  }

  ghost predicate RowsOk(s: State) {
    forall j :: j in s.jobs.rows && IsAcme(s.jobs.rows[j].kind) ==>
      && j in s.history.admissions
      && (s.jobs.rows[j].certificateId.Some? ==> s.jobs.rows[j].certificateId == Some(s.history.admissions[j].cert))
      && ClockOk(s.history.admissions[j].started)
      && s.jobs.rows[j].startedAt == Format(s.history.admissions[j].started)
  }

  ghost predicate CallOk(s: State, c: Call) {
    IsAcme(c.kind) ==>
      && (c.pc.Loaded? || c.pc.Timed? ==> c.cert >= 1)
      && (c.pc.Timed? || c.pc.NotRunning? ==> ClockOk(c.now))
      && (c.pc.NotRunning? || c.pc.Admitted? ==> c.cert >= 1 && c.readAt < s.step && QuietBefore(s, c.cert, c.readAt))
      && (c.pc.Admitted? ==> CooledBefore(s, c.cert, c.readAt, c.now))
  }

  ghost predicate AdmissionOk(s: State, b: nat)
    requires b in s.history.admissions
  {
    var a := s.history.admissions[b];
    && a.readAt < a.insertedAt < s.step
    && QuietBefore(s, a.cert, a.readAt)
    && CooledBefore(s, a.cert, a.readAt, a.guardNow)
  }

  ghost predicate Guarding(s: State) {
    && ClockOk(s.clock) && s.certificates.nextId >= 1 && 0 !in s.certificates.rows
    && RowsOk(s)
    && (forall k :: k in s.calls ==> CallOk(s, s.calls[k]))
    && (forall b :: b in s.history.admissions ==> b < s.jobs.nextId && AdmissionOk(s, b))
    && (forall a, b :: a in s.history.admissions && b in s.history.admissions && a < b ==>
      s.history.admissions[a].insertedAt < s.history.admissions[b].insertedAt)
  }

  // ---------- how the jobs table evolves in one step ----------

  /** The row keeps its kind and start, may lose its certificate, and changes status only by ending. */
  predicate OnlyEnds(before: Job, after: Job) {
    && after.kind == before.kind && after.startedAt == before.startedAt
    && (after.certificateId == before.certificateId || after.certificateId == None)
    && (after.status == before.status || before.status.Running?)
  }

  ghost predicate Evolves(s: State, s': State) {
    && s'.step == s.step + 1
    && (forall j :: j in s.history.admissions ==>
      j in s'.history.admissions && s'.history.admissions[j] == s.history.admissions[j])
    && (forall j :: j in s'.jobs.rows && j in s.jobs.rows ==> OnlyEnds(s.jobs.rows[j], s'.jobs.rows[j]))
    && (forall j :: j in s'.jobs.rows && j !in s.jobs.rows && j in s'.history.admissions ==>
      s'.history.admissions[j].insertedAt == s.step)
  }

  lemma QuietKept(s: State, s': State, cert: nat, readAt: nat)
    requires RowsOk(s) && Evolves(s, s') && readAt < s.step && QuietBefore(s, cert, readAt)
    ensures QuietBefore(s', cert, readAt)
  {
    hide ClockOk, Format;
  }

  lemma CooledKept(s: State, s': State, cert: nat, readAt: nat, now: int)
    requires RowsOk(s) && Evolves(s, s') && readAt < s.step
    requires QuietBefore(s, cert, readAt) && CooledBefore(s, cert, readAt, now)
    ensures CooledBefore(s', cert, readAt, now)
  {
    hide ClockOk, Format;
  }

  lemma AdvanceJobs(s: State, k: nat, input: Input)
    requires Conserved(s) && k in s.calls && !s.calls[k].pc.Returned?
    ensures var s' := Advance(s, k, input);
      || (s'.jobs == s.jobs && s'.history.admissions == s.history.admissions)
      || (s.calls[k].pc.Admitted? && s' == Inserted(s, k))
      || (IsRunning(s, s.calls[k].job) && s' == Finished(s, k))
  {
    hide Advance, Inserted, Finished;
    Effects(s, k, input);
    if s.calls[k].pc.Fetched? {
      assert Held(s, s.calls[k].job);
    }
  }

  lemma StepEvolves(s: State, e: Event)
    requires Conserved(s) && Enabled(s, e)
    requires forall b :: b in s.history.admissions ==> b < s.jobs.nextId
    ensures Evolves(s, Next(s, e))
  {
    if e.Step? {
      hide Conserved, Advance, Evolves;
      AdvanceEvolves(s, e.call, e.input);
    } else {
      hide Advance;
      OthersEvolve(s, e);
    }
  }

  lemma OthersEvolve(s: State, e: Event)
    requires Enabled(s, e) && !e.Step?
    ensures Evolves(s, Next(s, e))
  {
    hide Advance;
  }

  /** Evolves, but for the step counter. */
  ghost predicate JobsEvolve(s: State, s': State) {
    Evolves(s, s'.(step := s.step + 1))
  }

  lemma AdvanceEvolves(s: State, k: nat, input: Input)
    requires Conserved(s) && k in s.calls && !s.calls[k].pc.Returned?
    requires forall b :: b in s.history.admissions ==> b < s.jobs.nextId
    ensures JobsEvolve(s, Advance(s, k, input))
  {
    hide Advance, Inserted, Finished, JobsEvolve, Conserved;
    AdvanceJobs(s, k, input);
    var s' := Advance(s, k, input);
    if s.calls[k].pc.Admitted? && s' == Inserted(s, k) {
      InsertEvolves(s, k);
    } else if IsRunning(s, s.calls[k].job) && s' == Finished(s, k) {
      FinishEvolves(s, k);
    } else {
      SameJobsEvolve(s, s');
    }
  }

  lemma SameJobsEvolve(s: State, s': State)
    requires s'.jobs == s.jobs && s'.history.admissions == s.history.admissions
    ensures JobsEvolve(s, s')
  {
  }

  lemma InsertEvolves(s: State, k: nat)
    requires Conserved(s) && k in s.calls
    requires forall b :: b in s.history.admissions ==> b < s.jobs.nextId
    ensures JobsEvolve(s, Inserted(s, k))
  {
    hide NewJob;
    assert s.jobs.nextId !in s.jobs.rows;
    hide Conserved;
  }

  lemma FinishEvolves(s: State, k: nat)
    requires k in s.calls && IsRunning(s, s.calls[k].job)
    ensures JobsEvolve(s, Finished(s, k))
  {
  }

  // ---------- the invariant is kept ----------

  /** Every fact about a call that only waits survives a step of the others. */
  lemma CallKept(s: State, s': State, c: Call)
    requires RowsOk(s) && Evolves(s, s') && CallOk(s, c)
    ensures CallOk(s', c)
  {
    assert s'.step == s.step + 1;
    hide RowsOk, Evolves, QuietBefore, CooledBefore;
    if IsAcme(c.kind) && (c.pc.NotRunning? || c.pc.Admitted?) {
      QuietKept(s, s', c.cert, c.readAt);
      if c.pc.Admitted? {
        CooledKept(s, s', c.cert, c.readAt, c.now);
      }
    }
  }

  lemma AdmissionKept(s: State, s': State, b: nat)
    requires RowsOk(s) && Evolves(s, s') && b in s.history.admissions && AdmissionOk(s, b)
    ensures b in s'.history.admissions && AdmissionOk(s', b)
  {
    var a := s.history.admissions[b];
    QuietKept(s, s', a.cert, a.readAt);
    CooledKept(s, s', a.cert, a.readAt, a.guardNow);
    hide RowsOk, QuietBefore, CooledBefore;
  }

  /** The running-job query found nothing: whatever was inserted before it has ended. */
  lemma QueryFoundNoneRunning(s: State, cert: nat)
    requires AdmittedEarlier(s) && cert >= 1 && !HasRunning(s.jobs, cert)
    ensures QuietBefore(s, cert, s.step)
  {
  }

  ghost predicate AdmittedEarlier(s: State) {
    forall j :: j in s.history.admissions ==> s.history.admissions[j].insertedAt < s.step
  }

  /** The failed-job query found nothing: whatever failed has cooled down at the `now` it was given. */
  lemma QueryFoundNoneFailed(s: State, cert: nat, readAt: nat, now: int)
    requires RowsOk(s) && cert >= 1 && ClockOk(now)
    requires forall j :: j in s.jobs.rows ==> j < s.jobs.nextId
    requires LatestFailedSince(s.jobs, cert, Format(now - COOLDOWN)).None?
    ensures CooledBefore(s, cert, readAt, now)
  {
    hide Format, Parse, ClockOk, TextBefore;
    forall j | j in s.jobs.rows && IsFailed(s.jobs.rows[j], cert) && j in s.history.admissions
      ensures FloorSecond(s.history.admissions[j].started) + COOLDOWN + SECOND <= now
    {
      var started := s.history.admissions[j].started;
      StartOfAdmitted(started);
      CooldownText(s.jobs.rows[j], now);
      assert !FailedSince(s.jobs.rows[j], cert, Format(now - COOLDOWN));
    }
  }

  lemma StartOfAdmitted(started: int)
    requires ClockOk(started)
    ensures Parse(Format(started)) == Some(FloorSecond(started))
  {
    ParseOfFormat(started);
  }

  predicate BeforeInsert(pc: Pc) {
    pc.Begun? || pc.Loaded? || pc.Timed? || pc.NotRunning?
  }

  /** A guard statement adds what it read to what the call knows. */
  lemma GuardedCallOk(s: State, c: Call, input: Input)
    requires RowsOk(s) && AdmittedEarlier(s) && ClockOk(s.clock) && 0 !in s.certificates.rows
    requires CallOk(s, c) && BeforeInsert(c.pc)
    requires forall j :: j in s.jobs.rows ==> j < s.jobs.nextId
    ensures CallOk(s.(step := s.step + 1), Guarded(s, c, input))
  {
    hide RowsOk, AdmittedEarlier, QuietBefore, CooledBefore, HasRunning, LatestFailedSince, ClockOk, Format;
    var c', next := Guarded(s, c, input), s.(step := s.step + 1);
    if c'.pc.NotRunning? && IsAcme(c.kind) {
      QueryFoundNoneRunning(s, c.cert);
      SameTable(s, next, c'.cert, c'.readAt, c'.now);
    } else if c'.pc.Admitted? && IsAcme(c.kind) {
      QueryFoundNoneFailed(s, c.cert, c.readAt, c.now);
      SameTable(s, next, c'.cert, c'.readAt, c'.now);
    }
  }

  lemma SameTable(s: State, s': State, cert: nat, readAt: nat, now: int)
    requires s'.jobs == s.jobs && s'.history == s.history
    ensures QuietBefore(s, cert, readAt) <==> QuietBefore(s', cert, readAt)
    ensures CooledBefore(s, cert, readAt, now) <==> CooledBefore(s', cert, readAt, now)
  {
  }

  lemma PastTheGuard(s: State, k: nat, input: Input)
    requires k in s.calls && !s.calls[k].pc.Returned? && !BeforeInsert(s.calls[k].pc)
    ensures var pc := Advance(s, k, input).calls[k].pc; !BeforeInsert(pc) && !pc.Admitted?
  {
    hide Guarded, Wrote, Writable, Inserted, Abandoned, Finished, Marked, UpdateStatus;
    CallAfter(s, k);
  }

  lemma BeforeTheGuard(s: State, k: nat, input: Input)
    requires k in s.calls && BeforeInsert(s.calls[k].pc)
    ensures Advance(s, k, input) == Put(s, k, Guarded(s, s.calls[k], input))
  {
  }

  lemma MovedCallOk(s: State, k: nat, input: Input)
    requires Guarding(s) && Conserved(s) && k in s.calls && !s.calls[k].pc.Returned?
    ensures CallOk(Next(s, Step(k, input)), Next(s, Step(k, input)).calls[k])
  {
    hide Advance, Guarded, RowsOk, QuietBefore, CooledBefore;
    var c := s.calls[k];
    var s' := Next(s, Step(k, input));
    if BeforeInsert(c.pc) {
      BeforeTheGuard(s, k, input);
      assert forall j :: j in s.jobs.rows ==> j < s.jobs.nextId;
      assert CallOk(s, c);
      assert AdmittedEarlier(s) by {
        assert forall j :: j in s.history.admissions ==> AdmissionOk(s, j);
      }
      hide Guarding, Conserved, CallOk;
      GuardedCallOk(s, c, input);
      CallOkDependsOn(s.(step := s.step + 1), s', s'.calls[k]);
    } else {
      PastTheGuard(s, k, input);
      hide Guarding, Conserved;
    }
  }

  lemma CallOkDependsOn(s: State, s': State, c: Call)
    requires s'.jobs == s.jobs && s'.history == s.history && s'.step == s.step && CallOk(s, c)
    ensures CallOk(s', c)
  {
    SameTable(s, s', c.cert, c.readAt, c.now);
    hide QuietBefore, CooledBefore;
  }

  /** The admission recorded by an insert repeats what its call knew. */
  lemma NewAdmissionOk(s: State, k: nat)
    requires Guarding(s) && k in s.calls && s.calls[k].pc.Admitted? && IsAcme(s.calls[k].kind)
    requires Conserved(s)
    ensures var s' := Inserted(s, k).(step := s.step + 1);
      s.jobs.nextId in s'.history.admissions && AdmissionOk(s', s.jobs.nextId)
  {
    var c, s' := s.calls[k], Inserted(s, k).(step := s.step + 1);
    assert CallOk(s, c);
    InsertEvolves(s, k);
    assert Evolves(s, s');
    QuietKept(s, s', c.cert, c.readAt);
    CooledKept(s, s', c.cert, c.readAt, c.now);
    hide Guarding, Conserved, Evolves, QuietBefore, CooledBefore, NewJob;
  }

  lemma NewRowOk(s: State, k: nat)
    requires Guarding(s) && k in s.calls
    ensures RowsOk(Inserted(s, k))
  {
    hide AdmissionOk, CallOk, Format, ClockOk;
  }

  // ---------- one step ----------

  lemma RowsKept(s: State, s': State)
    requires RowsOk(s) && Evolves(s, s')
    requires forall j :: j in s'.jobs.rows ==> j in s.jobs.rows
    ensures RowsOk(s')
  {
    hide Format, ClockOk;
  }

  /** Any new admission is that of the row just inserted. */
  ghost predicate AdmissionsGrow(s: State, s': State) {
    && RowsOk(s') && s'.jobs.nextId >= s.jobs.nextId
    && forall b :: b in s'.history.admissions && b !in s.history.admissions ==>
      && b == s.jobs.nextId && s'.jobs.nextId == b + 1
      && s'.history.admissions[b].insertedAt == s.step && AdmissionOk(s', b)
  }

  lemma AdvanceAdmissions(s: State, k: nat, input: Input)
    requires Guarding(s) && Conserved(s) && k in s.calls && !s.calls[k].pc.Returned?
    ensures AdmissionsGrow(s, Next(s, Step(k, input)))
  {
    hide Advance, AdmissionOk, CallOk, Conserved, Inserted, Finished;
    var s', t := Next(s, Step(k, input)), Advance(s, k, input);
    AdvanceJobs(s, k, input);
    StepEvolves(s, Step(k, input));
    if s.calls[k].pc.Admitted? && t == Inserted(s, k) {
      InsertGrows(s, k);
    } else if IsRunning(s, s.calls[k].job) && t == Finished(s, k) {
      FinishGrows(s, k);
    } else {
      RowsKept(s, s');
    }
  }

  lemma InsertGrows(s: State, k: nat)
    requires Guarding(s) && Conserved(s) && k in s.calls && s.calls[k].pc.Admitted?
    ensures AdmissionsGrow(s, Inserted(s, k).(step := s.step + 1))
  {
    NewRowOk(s, k);
    if IsAcme(s.calls[k].kind) {
      NewAdmissionOk(s, k);
    }
    hide RowsOk, Conserved, NewJob, AdmissionOk, Guarding;
    RowsDependOn(Inserted(s, k), Inserted(s, k).(step := s.step + 1));
  }

  lemma RowsDependOn(s: State, s': State)
    requires RowsOk(s) && s'.jobs == s.jobs && s'.history == s.history
    ensures RowsOk(s')
  {
    hide ClockOk, Format;
  }

  lemma FinishGrows(s: State, k: nat)
    requires RowsOk(s) && k in s.calls && IsRunning(s, s.calls[k].job)
    requires Evolves(s, Finished(s, k).(step := s.step + 1))
    ensures AdmissionsGrow(s, Finished(s, k).(step := s.step + 1))
  {
    hide AdmissionOk;
    RowsKept(s, Finished(s, k).(step := s.step + 1));
    hide RowsOk, Evolves;
  }

  lemma StepGuards(s: State, e: Event)
    requires Guarding(s) && Conserved(s) && Enabled(s, e)
    ensures Guarding(Next(s, e))
  {
    var s' := Next(s, e);
    StepEvolves(s, e);
    TablesKept(s, e);
    forall k | k in s'.calls
      ensures CallOk(s', s'.calls[k])
    {
      if e.Step? && e.call == k {
        MovedCallOk(s, k, e.input);
      } else if k in s.calls {
        OtherCallsUntouched(s, e, k);
        CallKept(s, s', s.calls[k]);
      } else {
        FreshCall(s, e, k);
      }
    }
    AdmissionsKept(s, e);
  }

  lemma OtherCallsUntouched(s: State, e: Event, k: nat)
    requires Enabled(s, e) && k in s.calls && !(e.Step? && e.call == k)
    ensures k in Next(s, e).calls && Next(s, e).calls[k] == s.calls[k]
  {
    hide Advance;
  }

  lemma FreshCall(s: State, e: Event, k: nat)
    requires Enabled(s, e) && k !in s.calls && k in Next(s, e).calls
    ensures Next(s, e).calls[k].pc.Begun?
  {
    hide Advance;
  }

  lemma TablesKept(s: State, e: Event)
    requires Enabled(s, e) && ClockOk(s.clock) && s.certificates.nextId >= 1 && 0 !in s.certificates.rows
    ensures var s' := Next(s, e); ClockOk(s'.clock) && s'.certificates.nextId >= 1 && 0 !in s'.certificates.rows
  {
    hide Guarded, NewJob, Wrote, Writable, ClockOk;
  }

  lemma AdmissionsKept(s: State, e: Event)
    requires Guarding(s) && Conserved(s) && Enabled(s, e) && Evolves(s, Next(s, e))
    ensures var s' := Next(s, e);
      && RowsOk(s')
      && (forall b :: b in s'.history.admissions ==> b < s'.jobs.nextId && AdmissionOk(s', b))
      && (forall a, b :: a in s'.history.admissions && b in s'.history.admissions && a < b ==>
        s'.history.admissions[a].insertedAt < s'.history.admissions[b].insertedAt)
  {
    hide Advance, CallOk;
    var s' := Next(s, e);
    forall b | b in s.history.admissions
      ensures b in s'.history.admissions && AdmissionOk(s', b) && s.history.admissions[b].insertedAt < s.step
    {
      AdmissionKept(s, s', b);
    }
    if e.Step? {
      AdvanceAdmissions(s, e.call, e.input);
    } else {
      RowsKept(s, s');
    }
    hide AdmissionOk, RowsOk, Conserved;
  }

  lemma {:induction false} RunGuards(states: seq<State>, events: seq<Event>, i: nat)
    requires IsRun(states, events) && i < |states|
    ensures Guarding(states[i])
  {
    hide Enabled, Next;
    if i > 0 {
      hide Guarding, Conserved;
      RunGuards(states, events, i - 1);
      RunConserves(states, events, i - 1);
      StepGuards(states[i - 1], events[i - 1]);
    }
  }

  // ---------- overlapping jobs ----------

  /** Job j of the table is an issue or renew job of the certificate, and runs. */
  predicate RunsFor(s: State, j: nat, cert: nat) {
    j in s.jobs.rows && IsAcmeJob(s.jobs.rows[j], cert) && s.jobs.rows[j].status.Running?
  }

  /**
   * Two running jobs of one certificate: the call that inserted the second had read the jobs table before the
   * first was inserted.
   */
  lemma OverlapMeansEarlyRead(states: seq<State>, events: seq<Event>, i: nat, a: nat, b: nat, cert: nat)
    requires IsRun(states, events) && i < |states| && a < b
    requires RunsFor(states[i], a, cert) && RunsFor(states[i], b, cert)
    ensures a in states[i].history.admissions && b in states[i].history.admissions
    ensures states[i].history.admissions[b].readAt < states[i].history.admissions[a].insertedAt
      < states[i].history.admissions[b].insertedAt
  {
    RunGuards(states, events, i);
    hide ClockOk, Format, CallOk;
    assert AdmissionOk(states[i], b);
  }

  /**
   * An abandoned issue or renew job shuts its certificate: as long as its row names the certificate, every call that
   * ever gets past the guard had read the jobs table before that job was inserted.
   */
  lemma AbandonedJobShuts(states: seq<State>, events: seq<Event>, i: nat, n: nat, j: nat, b: nat, cert: nat)
    requires IsRun(states, events) && i <= n < |states| && j in states[i].history.leaked
    requires j in states[n].jobs.rows ==> IsAcmeJob(states[n].jobs.rows[j], cert)
    requires b in states[n].history.admissions && states[n].history.admissions[b].cert == cert
    ensures j in states[n].history.admissions
    ensures states[n].history.admissions[b].readAt < states[n].history.admissions[j].insertedAt
  {
    AbandonedRunsForGood(states, events, j, i, n);
    RunGuards(states, events, n);
    hide ClockOk, Format, CallOk;
    assert AdmissionOk(states[n], b);
  }

  /** No job of a certificate is inserted between the guard's read and the insert of another of its jobs. */
  ghost predicate GuardAndInsertAreOneStep(s: State) {
    var h := s.history.admissions;
    forall a, b :: a in h && b in h && h[a].cert == h[b].cert ==>
      !(h[b].readAt < h[a].insertedAt < h[b].insertedAt)
  }

  /** With guard and insert as one step at most one job of a certificate runs. */
  lemma AtMostOneRunning(states: seq<State>, events: seq<Event>, i: nat, a: nat, b: nat, cert: nat)
    requires IsRun(states, events) && i < |states| && GuardAndInsertAreOneStep(states[i])
    requires RunsFor(states[i], a, cert) && RunsFor(states[i], b, cert)
    ensures a == b
  {
    RunGuards(states, events, i);
    hide ClockOk, Format, CallOk, AdmissionOk;
    if a < b {
      OverlapMeansEarlyRead(states, events, i, a, b, cert);
    } else if b < a {
      OverlapMeansEarlyRead(states, events, i, b, a, cert);
    }
  }

  const FINE := Input(false, None, None, true)

  lemma Joined(first: seq<State>, before: seq<Event>, second: seq<State>, after: seq<Event>)
    requires Steps(first, before) && Steps(second, after) && first[|before|] == second[0]
    ensures Steps(first + second[1..], before + after)
    ensures (first + second[1..])[0] == first[0] && (first + second[1..])[|before + after|] == second[|after|]
  {
    hide Enabled, Next;
    var states, events := first + second[1..], before + after;
    forall i | 0 <= i < |events|
      ensures Enabled(states[i], events[i]) && states[i + 1] == Next(states[i], events[i])
    {
      if i >= |before| {
        assert states[i] == second[i - |before|] && events[i] == after[i - |before|];
      }
    }
  }

  /** With no job in the table, four statements take a call on an existing certificate through its guard. */
  lemma PassesGuard(s: State, k: nat) returns (states: seq<State>, events: seq<Event>)
    requires k in s.calls && IsAcme(s.calls[k].kind) && s.calls[k].pc.Begun?
    requires s.calls[k].cert in s.certificates.rows && s.certificates.rows[s.calls[k].cert].expiresAt == None
    requires s.jobs == Jobs(map[], 1)
    ensures Steps(states, events) && states[0] == s
    ensures var t := states[|events|];
      && k in t.calls && t.calls == s.calls[k := t.calls[k]] && t == s.(step := t.step, calls := t.calls)
      && t.calls[k].pc.Admitted? && t.calls[k].kind == s.calls[k].kind && t.calls[k].cert == s.calls[k].cert
  {
    hide Format;
    var s1 := Next(s, Step(k, FINE));
    assert s1.calls[k].pc.Loaded? && s1 == s.(step := s.step + 1, calls := s.calls[k := s1.calls[k]]);
    var s2 := Next(s1, Step(k, FINE));
    assert s2.calls[k].pc.Timed? && s2 == s.(step := s.step + 2, calls := s.calls[k := s2.calls[k]]);
    var s3 := Next(s2, Step(k, FINE));
    assert s3.calls[k].pc.NotRunning? && s3 == s.(step := s.step + 3, calls := s.calls[k := s3.calls[k]]);
    var s4 := Next(s3, Step(k, FINE));
    assert s4.calls[k].pc.Admitted? && s4 == s.(step := s.step + 4, calls := s.calls[k := s4.calls[k]]);
    states, events := [s, s1, s2, s3, s4], [Step(k, FINE), Step(k, FINE), Step(k, FINE), Step(k, FINE)];
    hide Next, Enabled;
  }

  /** A certificate is added and two calls begin on it. */
  lemma TwoCallsBegin(profile: Profile) returns (states: seq<State>, events: seq<Event>)
    ensures IsRun(states, events)
    ensures var t := states[|events|];
      && t.calls == map[0 := Call(Issue, 1, None, Begun, 0, 0, 0, NOTHING, Running),
                        1 := Call(Renew, 1, None, Begun, 0, 0, 0, NOTHING, Running)]
      && t.jobs == Jobs(map[], 1) && 1 in t.certificates.rows && t.certificates.rows[1].expiresAt == None
  {
    FirstClock();
    hide ClockOk, Advance;
    var s0 := State("/data/certs", COOLDOWN, 0, Certificates(map[], 1), map[], Jobs(map[], 1), map[],
                    History(map[], map[], multiset{}, {}, map[]));
    var s1 := Next(s0, Add(profile));
    var s2 := Next(s1, Begin(0, Issue, 1, None));
    var s3 := Next(s2, Begin(1, Renew, 1, None));
    states, events := [s0, s1, s2, s3], [Add(profile), Begin(0, Issue, 1, None), Begin(1, Renew, 1, None)];
  }

  /** Two calls that have both passed their guard both insert. */
  lemma BothInsert(s: State) returns (states: seq<State>, events: seq<Event>)
    requires forall k: nat :: k < 2 ==>
      k in s.calls && IsAcme(s.calls[k].kind) && s.calls[k].pc.Admitted? && s.calls[k].cert == 1
    requires s.jobs.nextId == 1 && 1 in s.certificates.rows
    ensures Steps(states, events) && states[0] == s
    ensures RunsFor(states[|events|], 1, 1) && RunsFor(states[|events|], 2, 1)
  {
    hide Advance, NewJob;
    InsertsJob(s, 0, 1);
    var s1 := Next(s, Step(0, FINE));
    assert s1.calls[1] == s.calls[1] && s1.certificates == s.certificates;
    InsertsJob(s1, 1, 1);
    var s2 := Next(s1, Step(1, FINE));
    states, events := [s, s1, s2], [Step(0, FINE), Step(1, FINE)];
    assert Enabled(s, Step(0, FINE)) && Enabled(s1, Step(1, FINE));
    hide Next, Enabled, RunsFor;
  }

  /** Mutual exclusion itself is false: in some run two jobs of one certificate run at the same time. */
  lemma OverlapHappens(profile: Profile) returns (states: seq<State>, events: seq<Event>)
    ensures IsRun(states, events)
    ensures RunsFor(states[|events|], 1, 1) && RunsFor(states[|events|], 2, 1)
  {
    hide Next, Enabled, RunsFor;
    states, events := TwoCallsBegin(profile);
    var more, next := PassesGuard(states[|events|], 0);
    Joined(states, events, more, next);
    states, events := states + more[1..], events + next;
    more, next := PassesGuard(states[|events|], 1);
    Joined(states, events, more, next);
    states, events := states + more[1..], events + next;
    more, next := BothInsert(states[|events|]);
    Joined(states, events, more, next);
    states, events := states + more[1..], events + next;
  }

  lemma FirstClock()
    ensures ClockOk(COOLDOWN)
  {
  }

  lemma InsertsJob(s: State, k: nat, cert: nat)
    requires k in s.calls && IsAcme(s.calls[k].kind) && s.calls[k].pc.Admitted? && s.calls[k].cert == cert
    requires cert in s.certificates.rows
    ensures Next(s, Step(k, FINE)) == Inserted(s, k).(step := s.step + 1)
    ensures RunsFor(Next(s, Step(k, FINE)), s.jobs.nextId, cert)
    ensures Next(s, Step(k, FINE)).jobs.nextId == s.jobs.nextId + 1
    ensures forall j: nat :: j < s.jobs.nextId && RunsFor(s, j, cert) ==> RunsFor(Next(s, Step(k, FINE)), j, cert)
  {
    hide Format;
    var s' := Inserted(s, k);
    assert Advance(s, k, FINE) == s';
    hide Advance;
    assert s'.jobs == InsertJob(s.jobs, NewJob(s, s.calls[k]));
    hide Inserted;
  }
}
