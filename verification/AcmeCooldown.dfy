/**
 * The cooldown in every interleaving: a failed issue or renew job keeps the calls of its certificate away for
 * fifteen minutes and a second, unless completed jobs are cleared in between.
 */
module AcmeCooldown {
  import opened TimeText
  import opened Calendar
  import opened Tables
  import opened AcmeMachine
  import opened JobConservation
  import opened AcmeOverlap
  import IssuedFiles

  predicate FailedFor(s: State, j: nat, cert: nat) {
    j in s.jobs.rows && IsFailed(s.jobs.rows[j], cert)
  }

  /** The certificate was removed. Its id is never given again. */
  predicate Gone(s: State, cert: nat) {
    cert < s.certificates.nextId && cert !in s.certificates.rows
  }

  /** Call b read the jobs table before job a was inserted, or its clock reading is past a's cooldown. */
  predicate Apart(s: State, a: nat, b: nat)
    requires a in s.history.admissions && b in s.history.admissions
  {
    var h := s.history.admissions;
    && h[a].insertedAt != h[b].readAt
    && (h[a].insertedAt < h[b].readAt ==> FloorSecond(h[a].started) + COOLDOWN + SECOND <= h[b].guardNow)
  }

  /** Every admission of the certificate keeps its distance from job a, which is still failed unless all is gone. */
  ghost predicate Cooled(s: State, a: nat, cert: nat) {
    && a in s.history.admissions && s.history.admissions[a].cert == cert
    && (forall b :: b in s.history.admissions && s.history.admissions[b].cert == cert ==> Apart(s, a, b))
    && (FailedFor(s, a, cert) || Gone(s, cert))
  }

  /** While the failed row is in the table, the guard's reads keep every admission at a distance. */
  lemma FailedCools(s: State, a: nat, cert: nat)
    requires Guarding(s) && FailedFor(s, a, cert)
    ensures Cooled(s, a, cert)
  {
    hide ClockOk, Format, CallOk;
    forall b | b in s.history.admissions && s.history.admissions[b].cert == cert
      ensures Apart(s, a, b)
    {
      assert AdmissionOk(s, b);
    }
  }

  // ---------- certificates that are gone stay gone ----------

  ghost predicate Numbered(s: State) {
    && (forall id :: id in s.certificates.rows ==> id < s.certificates.nextId)
    && (forall b :: b in s.history.admissions ==> s.history.admissions[b].cert < s.certificates.nextId)
  }

  /** A step adds no row under an old id. */
  lemma RowsKeepIds(s: State, e: Event)
    requires Enabled(s, e) && forall id :: id in s.certificates.rows ==> id < s.certificates.nextId
    ensures var t, t' := s.certificates, Next(s, e).certificates;
      && t.nextId <= t'.nextId
      && forall id :: id in t'.rows ==> id < t'.nextId && (id < t.nextId ==> id in t.rows)
  {
    hide Advance, Format;
    if e.Step? {
      IssuedFiles.CertificateEffects(s, e.call, e.input);
    }
  }

  /** The foreign key of a new issue or renew job. */
  lemma InsertNeedsRow(s: State, k: nat, input: Input)
    requires k in s.calls && s.calls[k].pc.Admitted? && IsAcme(s.calls[k].kind)
    ensures s.calls[k].cert in s.certificates.rows || Advance(s, k, input).history.admissions == s.history.admissions
  {
    hide Inserted;
  }

  lemma NewAdmission(s: State, e: Event, b: nat)
    requires Guarding(s) && Conserved(s) && Enabled(s, e)
    requires b in Next(s, e).history.admissions && b !in s.history.admissions
    ensures var a := Next(s, e).history.admissions[b];
      a.insertedAt == s.step && a.cert in s.certificates.rows && e.Step?
  {
    hide Guarding, Conserved, Advance, Finished, NewJob;
    if e.Step? {
      AdvanceJobs(s, e.call, e.input);
      if s.calls[e.call].pc.Admitted? && IsAcme(s.calls[e.call].kind) {
        InsertNeedsRow(s, e.call, e.input);
      }
      FinishedAdmits(s, e.call);
    }
  }

  lemma FinishedAdmits(s: State, k: nat)
    ensures k in s.calls && s.calls[k].job in s.jobs.rows ==> Finished(s, k).history.admissions == s.history.admissions
  {
    hide Format;
  }

  lemma {:induction false} RunNumbered(states: seq<State>, events: seq<Event>, i: nat)
    requires IsRun(states, events) && i < |states|
    ensures Numbered(states[i])
  {
    hide Enabled, Next, Guarding, Conserved;
    if i > 0 {
      var s, e := states[i - 1], events[i - 1];
      RunNumbered(states, events, i - 1);
      RunGuards(states, events, i - 1);
      RunConserves(states, events, i - 1);
      RowsKeepIds(s, e);
      StepOnlyAdmits(s, e);
      forall b | b in states[i].history.admissions && b !in s.history.admissions
        ensures states[i].history.admissions[b].cert < states[i].certificates.nextId
      {
        NewAdmission(s, e, b);
      }
    }
  }

  /** Admissions are never lost or changed. */
  lemma StepOnlyAdmits(s: State, e: Event)
    requires Guarding(s) && Conserved(s) && Enabled(s, e)
    ensures forall b :: b in s.history.admissions ==>
      b in Next(s, e).history.admissions && Next(s, e).history.admissions[b] == s.history.admissions[b]
    ensures Next(s, e).step == s.step + 1
  {
    hide Next, Conserved;
    assert RowsOk(s);
    hide Guarding;
    StepEvolves(s, e);
  }

  // ---------- the cooldown along a run ----------

  lemma FailedStaysFailed(s: State, e: Event, j: nat, cert: nat)
    requires Conserved(s) && Enabled(s, e) && FailedFor(s, j, cert)
    requires !e.ClearCompleted? && !(e.Remove? && e.id == cert)
    ensures FailedFor(Next(s, e), j, cert)
  {
    if e.Step? {
      AdvanceJobs(s, e.call, e.input);
      assert !IsRunning(s, j) && j < s.jobs.nextId;
      hide Advance;
    }
    hide Conserved, NewJob;
  }

  /** A step that does not clear completed jobs leaves the certificate cooled. */
  lemma StepCools(s: State, e: Event, a: nat, cert: nat)
    requires Guarding(s) && Conserved(s) && Numbered(s) && Enabled(s, e) && Cooled(s, a, cert) && !e.ClearCompleted?
    requires Guarding(Next(s, e))
    ensures Cooled(Next(s, e), a, cert)
  {
    hide Guarding, Conserved, Next, FailedFor;
    var s' := Next(s, e);
    if FailedFor(s, a, cert) && !(e.Remove? && e.id == cert) {
      FailedStaysFailed(s, e, a, cert);
      FailedCools(s', a, cert);
    } else {
      assert Gone(s', cert) by {
        if FailedFor(s, a, cert) {
          RemovedIsGone(s, e, cert);
        } else {
          RowsKeepIds(s, e);
        }
      }
      StepOnlyAdmits(s, e);
      forall b | b in s'.history.admissions && s'.history.admissions[b].cert == cert
        ensures b in s.history.admissions
      {
        if b !in s.history.admissions {
          NewAdmission(s, e, b);
          RemovalAdmitsNothing(s, e, cert);
        }
      }
      hide FloorSecond;
    }
  }

  lemma RemovedIsGone(s: State, e: Event, cert: nat)
    requires Enabled(s, e) && e == Remove(cert) && cert < s.certificates.nextId
    ensures Gone(Next(s, e), cert)
  {
  }

  lemma RemovalAdmitsNothing(s: State, e: Event, cert: nat)
    requires Enabled(s, e) && e == Remove(cert)
    ensures Next(s, e).history == s.history
  {
  }

  lemma {:induction false} StaysCooled(states: seq<State>, events: seq<Event>, i: nat, n: nat, a: nat, cert: nat)
    requires IsRun(states, events) && i <= n < |states| && FailedFor(states[i], a, cert)
    requires forall m :: i <= m < n ==> !events[m].ClearCompleted?
    ensures Cooled(states[n], a, cert)
  {
    hide Enabled, Next, FailedFor, Conserved, Guarding, Cooled, Numbered;
    RunGuards(states, events, n);
    if i == n {
      FailedCools(states[n], a, cert);
    } else {
      StaysCooled(states, events, i, n - 1, a, cert);
      RunGuards(states, events, n - 1);
      RunConserves(states, events, n - 1);
      RunNumbered(states, events, n - 1);
      StepCools(states[n - 1], events[n - 1], a, cert);
    }
  }

  /** An admission recorded at step t is there from state t + 1 on, and stays as it is. */
  lemma {:induction false} AdmittedSince(states: seq<State>, events: seq<Event>, b: nat, q: nat, n: nat)
    requires IsRun(states, events) && q <= n < |states|
    requires b in states[n].history.admissions && states[n].history.admissions[b].insertedAt < q
    ensures states[n].step == n
    ensures b in states[q].history.admissions && states[q].history.admissions[b] == states[n].history.admissions[b]
  {
    hide Enabled, Next, Conserved, Guarding;
    StepIsIndex(states, events, n);
    if q < n {
      var s, e := states[n - 1], events[n - 1];
      RunGuards(states, events, n - 1);
      RunConserves(states, events, n - 1);
      StepOnlyAdmits(s, e);
      StepIsIndex(states, events, n - 1);
      if b !in s.history.admissions {
        NewAdmission(s, e, b);
      }
      AdmittedSince(states, events, b, q, n - 1);
    }
  }

  lemma {:induction false} StepIsIndex(states: seq<State>, events: seq<Event>, n: nat)
    requires IsRun(states, events) && n < |states|
    ensures states[n].step == n
  {
    hide Enabled, Next, Conserved, Guarding;
    if n > 0 {
      StepIsIndex(states, events, n - 1);
      RunGuards(states, events, n - 1);
      RunConserves(states, events, n - 1);
      StepOnlyAdmits(states[n - 1], events[n - 1]);
    }
  }

  lemma {:induction false} AdmittedUntil(states: seq<State>, events: seq<Event>, a: nat, q: nat, n: nat)
    requires IsRun(states, events) && q <= n < |states| && a in states[q].history.admissions
    ensures a in states[n].history.admissions && states[n].history.admissions[a] == states[q].history.admissions[a]
  {
    hide Enabled, Next, Conserved, Guarding;
    if q < n {
      AdmittedUntil(states, events, a, q, n - 1);
      RunGuards(states, events, n - 1);
      RunConserves(states, events, n - 1);
      StepOnlyAdmits(states[n - 1], events[n - 1]);
    }
  }

  /**
   * A job of the certificate has failed by state i, having started in second s. Any call that has inserted a job
   * of that certificate, with no clearing of completed jobs between state i and that insert, read the table
   * before the failed job's insert or read the clock at s + 15 min + 1 s or later. When guard and insert are one
   * step the latter holds for every later job.
   */
  lemma CooldownHolds(states: seq<State>, events: seq<Event>, i: nat, n: nat, a: nat, b: nat, cert: nat)
    requires IsRun(states, events) && i <= n < |states| && FailedFor(states[i], a, cert)
    requires b in states[n].history.admissions && states[n].history.admissions[b].cert == cert
    requires forall m :: i <= m < n && m < states[n].history.admissions[b].insertedAt ==> !events[m].ClearCompleted?
    ensures a in states[n].history.admissions
    ensures var h := states[n].history.admissions;
      h[a].insertedAt < h[b].readAt || (a < b && GuardAndInsertAreOneStep(states[n])) ==>
      FloorSecond(h[a].started) + COOLDOWN + SECOND <= h[b].guardNow
  {
    hide Enabled, Next, Conserved, Guarding, FailedFor;
    var t := states[n].history.admissions[b].insertedAt;
    RunGuards(states, events, n);
    AdmissionsBefore(states[n], b);
    StepIsIndex(states, events, n);
    var q := if t < i then i else t + 1;
    AdmittedSince(states, events, b, q, n);
    ClearedByStep(states, events, b, n);
    StaysCooled(states, events, i, q, a, cert);
    AdmittedUntil(states, events, a, q, n);
    if a < b {
      InsertOrder(states[n], a, b);
    }
  }

  /** The event that inserts a job clears nothing. */
  lemma {:induction false} ClearedByStep(states: seq<State>, events: seq<Event>, b: nat, n: nat)
    requires IsRun(states, events) && n < |states| && b in states[n].history.admissions
    ensures var t := states[n].history.admissions[b].insertedAt; t < n && !events[t].ClearCompleted?
  {
    hide Enabled, Next, Conserved, Guarding;
    RunGuards(states, events, n);
    AdmissionsBefore(states[n], b);
    StepIsIndex(states, events, n);
    if n > 0 {
      var s, e := states[n - 1], events[n - 1];
      RunGuards(states, events, n - 1);
      RunConserves(states, events, n - 1);
      StepIsIndex(states, events, n - 1);
      if b in s.history.admissions {
        StepOnlyAdmits(s, e);
        ClearedByStep(states, events, b, n - 1);
      } else {
        NewAdmission(s, e, b);
      }
    }
  }

  lemma AdmissionsBefore(s: State, b: nat)
    requires Guarding(s) && b in s.history.admissions
    ensures s.history.admissions[b].readAt < s.history.admissions[b].insertedAt < s.step
  {
    hide QuietBefore, CooledBefore;
    assert AdmissionOk(s, b);
  }

  lemma InsertOrder(s: State, a: nat, b: nat)
    requires Guarding(s) && a in s.history.admissions && b in s.history.admissions && a < b
    ensures s.history.admissions[a].insertedAt < s.history.admissions[b].insertedAt
  {
    hide AdmissionOk, CallOk, RowsOk;
  }
}
