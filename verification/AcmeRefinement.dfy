/**
 * The use case and the machine agree: a call of the machine that nothing interrupts changes the tables and the
 * files exactly as the method does.
 */
module AcmeRefinement {
  import opened Wrappers
  import opened TimeText
  import opened Domain
  import opened Tables
  import opened Pem
  import opened KongSync
  import opened AcmeMachine
  import opened AcmeUseCases

  /** The order of the program text. */
  function Rank(pc: Pc): nat {
    match pc
    case Begun => 13 case Loaded => 12 case Timed => 11 case NotRunning => 10 case Admitted => 9 case Working => 8
    case Obtained => 7 case ChainWritten => 6 case KeyWritten => 5 case Failing => 4 case Recording => 3
    case Completing => 2 case Fetched => 1 case Returned => 0
  }

  function TimeAt(env: Env, pc: Pc): int {
    if Rank(pc) >= 12 then env.guardAt else if Rank(pc) >= 9 then env.startedAt else env.finishedAt
  }

  /** The clock moves, then call k takes its next statement. */
  function OneStep(s: State, k: nat, env: Env): (s': State)
    requires k in s.calls && !s.calls[k].pc.Returned?
    ensures k in s'.calls && Rank(s'.calls[k].pc) < Rank(s.calls[k].pc)
  {
    var pc := s.calls[k].pc;
    var ticked := s.(clock := TimeAt(env, pc), step := s.step + 1);
    Forward(ticked, k, InputAt(env, pc));
    Advance(ticked, k, InputAt(env, pc)).(step := s.step + 2)
  }

  lemma Forward(s: State, k: nat, input: Input)
    requires k in s.calls && !s.calls[k].pc.Returned?
    ensures Rank(Advance(s, k, input).calls[k].pc) < Rank(s.calls[k].pc)
  {
    hide Wrote, Marked, Writable, Inserted, Abandoned, Finished, Guarded, UpdateStatus, ChainPath, KeyPath, Expiry;
    CallAfter(s, k);
    if Rank(s.calls[k].pc) >= 10 {
      GuardedForward(s, s.calls[k], input);
    }
  }

  lemma GuardedForward(s: State, c: Call, input: Input)
    requires Rank(c.pc) >= 10
    ensures Rank(Guarded(s, c, input).pc) < Rank(c.pc)
  {
    hide HasRunning, LatestFailedSince, ScanCertificate, Format;
  }

  /** Call k runs to its end and no other call takes a step. */
  function Alone(s: State, k: nat, env: Env): State
    requires k in s.calls
    decreases Rank(s.calls[k].pc)
  {
    if s.calls[k].pc.Returned? then s else Alone(OneStep(s, k, env), k, env)
  }

  // ---------- it is a run of the machine ----------

  ghost predicate Ticking(s: State, k: nat, env: Env)
    requires k in s.calls
  {
    && ClockOk(env.guardAt) && ClockOk(env.startedAt) && ClockOk(env.finishedAt)
    && env.guardAt <= env.startedAt <= env.finishedAt && s.clock <= TimeAt(env, s.calls[k].pc)
  }

  lemma {:induction false} AloneIsRun(s: State, k: nat, env: Env) returns (states: seq<State>, events: seq<Event>)
    requires k in s.calls && Ticking(s, k, env)
    ensures Steps(states, events) && states[0] == s && states[|events|] == Alone(s, k, env)
    decreases Rank(s.calls[k].pc)
  {
    hide Advance, ClockOk;
    if s.calls[k].pc.Returned? {
      return [s], [];
    }
    var pc := s.calls[k].pc;
    var tick, step := Tick(TimeAt(env, pc)), Step(k, InputAt(env, pc));
    var s1 := Next(s, tick);
    var s2 := Next(s1, step);
    assert s2 == OneStep(s, k, env);
    var rest, later := AloneIsRun(s2, k, env);
    states, events := [s, s1] + rest, [tick, step] + later;
    forall i | 0 <= i < |events|
      ensures Enabled(states[i], events[i]) && states[i + 1] == Next(states[i], events[i])
    {
      if i >= 2 {
        assert states[i] == rest[i - 2] && events[i] == later[i - 2] && states[i + 1] == rest[i - 1];
      }
    }
  }

  // ---------- it does what the method does ----------

  predicate Same(s: State, w: World) {
    s.certificates == w.certificates && s.jobs == w.jobs && s.files == w.files
  }

  lemma FromCompleting(s: State, k: nat, env: Env, w: World)
    requires k in s.calls && s.calls[k].pc.Completing? && Same(s, w)
    ensures Same(Alone(s, k, env), Completed(w, s.calls[k].job, s.calls[k].status, env))
  {
    hide Alone, Format, FinishJob;
    Unroll(s, k, env);
    var s1 := OneStep(s, k, env);
    if s1.calls[k].pc.Fetched? {
      Unroll(s1, k, env);
      Ended(OneStep(s1, k, env), k, env);
    } else {
      Ended(s1, k, env);
    }
  }

  lemma FromFailing(s: State, k: nat, env: Env, w: World)
    requires k in s.calls && s.calls[k].pc.Failing? && Same(s, w)
    ensures Same(Alone(s, k, env), Fail(w, s.calls[k].cert, s.calls[k].job, env).0)
  {
    hide Completed, Alone;
    var s1 := OneStep(s, k, env);
    var w1 := w.(certificates := s1.certificates);
    FromCompleting(s1, k, env, w1);
    Unroll(s, k, env);
  }

  lemma Unroll(s: State, k: nat, env: Env)
    requires k in s.calls && !s.calls[k].pc.Returned?
    ensures Alone(s, k, env) == Alone(OneStep(s, k, env), k, env)
  {
  }

  lemma Ended(s: State, k: nat, env: Env)
    requires k in s.calls && s.calls[k].pc.Returned?
    ensures Alone(s, k, env) == s
  {
  }

  lemma FromObtained(s: State, k: nat, env: Env, w: World)
    requires k in s.calls && s.calls[k].pc.Obtained? && Same(s, w)
    ensures Same(Alone(s, k, env), Deliver(w, s.certDir, s.calls[k].cert, s.calls[k].job, s.calls[k].issued, env).0)
  {
    hide Completed, Alone, Wrote, ChainPath, KeyPath, Fail;
    var c := s.calls[k];
    Unroll(s, k, env);
    var s1 := OneStep(s, k, env);
    if s1.calls[k].pc.Failing? {
      FromFailing(s1, k, env, w.(files := s1.files));
    } else {
      Unroll(s1, k, env);
      var s2 := OneStep(s1, k, env);
      if s2.calls[k].pc.Failing? {
        FromFailing(s2, k, env, w.(files := s2.files));
      } else {
        FromKeyWritten(s2, k, env, w.(files := s2.files));
      }
    }
  }

  lemma FromKeyWritten(s: State, k: nat, env: Env, w: World)
    requires k in s.calls && s.calls[k].pc.KeyWritten? && Same(s, w) && Expiry(s.calls[k].issued.chain.blocks).Some?
    ensures var c := s.calls[k];
      Same(Alone(s, k, env),
           if KeyWritten in env.faults || c.cert !in w.certificates.rows then w
           else Completed(w.(certificates := MarkIssued(w.certificates, c.cert, ChainPath(s.certDir, c.cert),
             KeyPath(s.certDir, c.cert), Expiry(c.issued.chain.blocks).value)), c.job, Success, env))
  {
    hide Alone, Completed, ChainPath, KeyPath, Format;
    Unroll(s, k, env);
    var s1 := OneStep(s, k, env);
    if s1.calls[k].pc.Completing? {
      FromCompleting(s1, k, env, w.(certificates := s1.certificates));
    } else {
      Ended(s1, k, env);
    }
  }

  /** From the client call on. */
  function Worked(w: World, certDir: string, id: nat, job: nat, env: Env): World {
    match env.reply
    case None => Fail(w, id, job, env).0
    case Some(issued) => Deliver(w, certDir, id, job, issued, env).0
  }

  lemma FromWorking(s: State, k: nat, env: Env, w: World)
    requires k in s.calls && s.calls[k].pc.Working? && IsAcme(s.calls[k].kind) && Same(s, w)
    ensures Same(Alone(s, k, env), Worked(w, s.certDir, s.calls[k].cert, s.calls[k].job, env))
  {
    hide Alone, Fail, Deliver;
    Unroll(s, k, env);
    var s1 := OneStep(s, k, env);
    if env.reply.None? {
      FromFailing(s1, k, env, w);
    } else {
      FromObtained(s1, k, env, w);
    }
  }

  lemma FromAdmitted(s: State, k: nat, env: Env, w: World)
    requires k in s.calls && s.calls[k].pc.Admitted? && IsAcme(s.calls[k].kind) && Same(s, w)
    requires s.calls[k].target.None? && s.calls[k].cert in w.certificates.rows
    ensures var c := s.calls[k];
      Same(Alone(s, k, env),
           if Admitted in env.faults then w
           else Worked(Started(w, c.kind, c.cert, env), s.certDir, c.cert, w.jobs.nextId, env))
  {
    hide Alone, Fail, Deliver;
    Unroll(s, k, env);
    var c, s1 := s.calls[k], OneStep(s, k, env);
    if s1.calls[k].pc.Working? {
      FromWorking(s1, k, env, Started(w, c.kind, c.cert, env));
    } else {
      Ended(s1, k, env);
    }
  }

  /** The call has its first reading of the clock and is about to ask the guard. */
  predicate Asking(s: State, k: nat, env: Env, w: World) {
    && k in s.calls && IsAcme(s.calls[k].kind) && Same(s, w)
    && s.calls[k].target.None? && s.calls[k].cert in w.certificates.rows && s.calls[k].now == env.guardAt
  }

  lemma FromNotRunning(s: State, k: nat, env: Env, w: World)
    requires Asking(s, k, env, w) && s.calls[k].pc.NotRunning?
    ensures var c := s.calls[k];
      Same(Alone(s, k, env),
           if NotRunning in env.faults || Admitted in env.faults
             || LatestFailedSince(w.jobs, c.cert, Format(env.guardAt - COOLDOWN)).Some? then w
           else Worked(Started(w, c.kind, c.cert, env), s.certDir, c.cert, w.jobs.nextId, env))
  {
    hide Alone, Worked, HasRunning, LatestFailedSince, Started, Format;
    Unroll(s, k, env);
    var s1 := OneStep(s, k, env);
    if s1.calls[k].pc.Returned? {
      Ended(s1, k, env);
    } else {
      FromAdmitted(s1, k, env, w);
    }
  }

  lemma FromTimed(s: State, k: nat, env: Env, w: World)
    requires Asking(s, k, env, w) && s.calls[k].pc.Timed?
    ensures var c := s.calls[k];
      Same(Alone(s, k, env),
           if Timed in env.faults || NotRunning in env.faults || Admitted in env.faults
             || !AcmeOperationState(w.jobs, c.cert, env.guardAt).Allowed? then w
           else Worked(Started(w, c.kind, c.cert, env), s.certDir, c.cert, w.jobs.nextId, env))
  {
    hide Alone, Worked, HasRunning, LatestFailedSince, Started, Format, AcmeOperationState;
    AllowedIff(w.jobs, s.calls[k].cert, env.guardAt);
    Unroll(s, k, env);
    var s1 := OneStep(s, k, env);
    if s1.calls[k].pc.Returned? {
      Ended(s1, k, env);
    } else {
      FromNotRunning(s1, k, env, w);
    }
  }

  lemma AllowedIff(t: Jobs, id: nat, now: int)
    ensures AcmeOperationState(t, id, now).Allowed? <==>
      !HasRunning(t, id) && LatestFailedSince(t, id, Format(now - COOLDOWN)).None?
  {
    hide HasRunning, LatestFailedSince, Format, Parse;
  }

  function Fresh(kind: JobType, id: nat): Call {
    Call(kind, id, None, Begun, 0, 0, 0, NOTHING, Running)
  }

  lemma FromBegun(s: State, k: nat, env: Env, w: World)
    requires k in s.calls && IsAcme(s.calls[k].kind)
    requires s.calls[k] == Fresh(s.calls[k].kind, s.calls[k].cert) && Same(s, w)
    ensures var c := s.calls[k];
      Same(Alone(s, k, env),
           if !Admits(w, c.cert, env) then w
           else Worked(Started(w, c.kind, c.cert, env), s.certDir, c.cert, w.jobs.nextId, env))
  {
    hide Alone, Worked, AcmeOperationState, Started, ScanCertificate;
    Unroll(s, k, env);
    var s1 := OneStep(s, k, env);
    if s1.calls[k].pc.Returned? {
      Ended(s1, k, env);
    } else {
      Unroll(s1, k, env);
      FromTimed(OneStep(s1, k, env), k, env, w);
    }
  }

  /** The environment as the machine sees it: existing files that cannot be read are a client without a result. */
  function MachineEnv(w: World, kind: JobType, id: nat, env: Env): Env {
    if id in w.certificates.rows then env.(reply := Answer(w, kind, id, env)) else env
  }

  lemma ReplyOnlyAnswers(w: World, certDir: string, id: nat, job: nat, issued: Issued, env: Env, reply: Option<Issued>)
    ensures Deliver(w, certDir, id, job, issued, env.(reply := reply)) == Deliver(w, certDir, id, job, issued, env)
  {
    hide ChainPath, KeyPath, Format, MarkIssued, UpdateStatus, FinishJob, Writable, Expiry;
  }

  /** An uninterrupted issue or renew call leaves the tables and files that the method's specification gives. */
  lemma UninterruptedCall(s: State, k: nat, kind: JobType, id: nat, env: Env, w: World)
    requires IsAcme(kind) && k in s.calls && s.calls[k] == Fresh(kind, id) && Same(s, w)
    ensures Same(Alone(s, k, MachineEnv(w, kind, id, env)), Operated(w, s.certDir, kind, id, env).0)
  {
    hide Alone, Deliver, Answer, AcmeOperationState, ScanCertificate;
    var env' := MachineEnv(w, kind, id, env);
    FromBegun(s, k, env', w);
    if Admits(w, id, env) && env'.reply.Some? {
      ReplyOnlyAnswers(Started(w, kind, id, env), s.certDir, id, w.jobs.nextId, env'.reply.value, env, env'.reply);
    }
  }
}
