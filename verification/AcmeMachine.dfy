/**
 * Issue, renew, sync and target-test calls as a state machine over the shared tables and files. Calls take
 * one statement at a time in any order; the clock, the ACME client, the disk and the failures of the
 * database are inputs of the steps.
 */
module AcmeMachine {
  import opened Wrappers
  import opened Text
  import opened TimeText
  import opened Domain
  import opened Tables
  import opened Pem

  /**
   * Issue and renew: before Get; before time.Now; before the running-job query; before the failed-job query;
   * before the job insert; before the client call; before the chain file; before the key file; before
   * MarkIssued; before UpdateStatus(failed). Sync and target tests start before the job insert and have one
   * write of their own after the client call. All: before Complete's Get; before its Update; returned.
   */
  datatype Pc =
    | Begun | Loaded | Timed | NotRunning | Admitted | Working | Obtained | ChainWritten | KeyWritten | Failing
    | Recording | Completing | Fetched | Returned

  datatype Call = Call(
    kind: JobType, cert: nat, target: Option<nat>, pc: Pc, now: int, readAt: nat, job: nat, issued: Issued,
    status: JobStatus)

  /** How a job came to be inserted: the step of the running-job query, its `now`, and the step of the insert. */
  datatype Admission = Admission(cert: nat, readAt: nat, guardNow: int, insertedAt: nat, started: int)

  /**
   * History only: admissions of issue and renew jobs; the call of every job; how often a job was completed;
   * jobs whose call returned on an error before completing them; the last result marked issued.
   */
  datatype History = History(
    admissions: map<nat, Admission>, holder: map<nat, nat>, completed: multiset<nat>, leaked: set<nat>,
    issued: map<nat, Issued>)

  datatype State = State(
    certDir: string, clock: int, step: nat, certificates: Certificates, files: map<string, Pem>, jobs: Jobs,
    calls: map<nat, Call>, history: History)

  /**
   * `fault`: this database or file operation fails. `reply`: the client's result, if any. `left`: what a failed
   * write leaves in the file, if it touched it. `ok`: the outcome of a sync or a target test.
   */
  datatype Input = Input(fault: bool, reply: Option<Issued>, left: Option<Pem>, ok: bool)

  datatype Event =
    | Tick(now: int)
    | Add(profile: Profile) | Edit(id: nat, profile: Profile) | Remove(id: nat)
    | ClearCompleted
    | Begin(call: nat, kind: JobType, cert: nat, target: Option<nat>)
    | Step(call: nat, input: Input)

  const NOTHING := Issued(Pem("", []), Pem("", []))

  predicate IsAcme(kind: JobType) {
    kind.Issue? || kind.Renew?
  }

  predicate Initial(s: State) {
    && ClockOk(s.clock) && s.step == 0
    && s.certificates == Certificates(map[], 1) && s.jobs == Jobs(map[], 1) && s.calls == map[]
    && s.history == History(map[], map[], multiset{}, {}, map[])
  }

  predicate Enabled(s: State, e: Event) {
    match e
    case Tick(now) => s.clock <= now && ClockOk(now)
    case Begin(k, kind, _, _) => k !in s.calls && !kind.Delete?
    case Step(k, _) => k in s.calls && !s.calls[k].pc.Returned?
    case _ => true
  }

  // ---------- the statements of a call ----------

  /** The reads before the job insert; they change nothing but the call itself. */
  function Guarded(s: State, c: Call, input: Input): Call {
    match c.pc
    case Begun =>
      if !IsAcme(c.kind) then c.(pc := Admitted)
      else if input.fault || c.cert !in s.certificates.rows
        || ScanCertificate(c.cert, s.certificates.rows[c.cert]).Err? then c.(pc := Returned)
      else c.(pc := Loaded)
    case Loaded => c.(pc := Timed, now := s.clock)
    case Timed =>
      if input.fault || HasRunning(s.jobs, c.cert) then c.(pc := Returned)
      else c.(pc := NotRunning, readAt := s.step)
    case _ =>
      if input.fault || LatestFailedSince(s.jobs, c.cert, Format(c.now - COOLDOWN)).Some? then c.(pc := Returned)
      else c.(pc := Admitted)
  }

  function NewJob(s: State, c: Call): Job {
    Job(if c.kind.TestKong? then None else Some(c.cert), c.target, c.kind, Running, Format(s.clock), None)
  }

  function Inserted(s: State, k: nat): State
    requires k in s.calls
  {
    var c, job := s.calls[k], s.jobs.nextId;
    var h := s.history.(holder := s.history.holder[job := k]);
    var h' := if IsAcme(c.kind)
      then h.(admissions := h.admissions[job := Admission(c.cert, c.readAt, c.now, s.step, s.clock)]) else h;
    s.(jobs := InsertJob(s.jobs, NewJob(s, c)), calls := s.calls[k := c.(pc := Working, job := job)], history := h')
  }

  /** The client call; a renewal first reads the existing files, which fails like the client does. */
  function Answered(c: Call, input: Input): Call {
    if !IsAcme(c.kind) then c.(pc := Recording, status := if input.ok then Success else Failure)
    else
      match input.reply
      case None => c.(pc := Failing)
      case Some(issued) => c.(pc := Obtained, issued := issued)
  }

  function Wrote(files: map<string, Pem>, path: string, content: Pem, input: Input): map<string, Pem> {
    if !input.fault then files[path := content]
    else if input.left.Some? then files[path := input.left.value]
    else files
  }

  /** The result passes the checks that come before the files are written. */
  predicate Writable(certDir: string, issued: Issued) {
    !Blank(certDir) && issued.chain.raw != "" && issued.key.raw != ""
  }

  function AfterKey(c: Call, input: Input): Call {
    c.(pc := if input.fault || Expiry(c.issued.chain.blocks).None? then Failing else KeyWritten)
  }

  function Marked(s: State, c: Call): State
    requires Expiry(c.issued.chain.blocks).Some?
  {
    var expiresAt := Expiry(c.issued.chain.blocks).value;
    var chainPath, keyPath := ChainPath(s.certDir, c.cert), KeyPath(s.certDir, c.cert);
    s.(certificates := MarkIssued(s.certificates, c.cert, chainPath, keyPath, expiresAt),
       history := s.history.(issued := s.history.issued[c.cert := c.issued]))
  }

  function Put(s: State, k: nat, c: Call): State {
    s.(calls := s.calls[k := c])
  }

  /** The call returns on a repository error and leaves its job running. */
  function Abandoned(s: State, k: nat): State
    requires k in s.calls
  {
    Put(s, k, s.calls[k].(pc := Returned)).(history := s.history.(leaked := s.history.leaked + {s.calls[k].job}))
  }

  function Finished(s: State, k: nat): State
    requires k in s.calls && s.calls[k].job in s.jobs.rows
  {
    var c := s.calls[k];
    Put(s, k, c.(pc := Returned)).(
      jobs := FinishJob(s.jobs, c.job, c.status, Format(s.clock)),
      history := s.history.(completed := s.history.completed + multiset{c.job}))
  }

  predicate MarkFails(s: State, c: Call, input: Input) {
    input.fault || c.cert !in s.certificates.rows || Expiry(c.issued.chain.blocks).None?
  }

  /** The next statement of call k. */
  function Advance(s: State, k: nat, input: Input): (s': State)
    requires k in s.calls && !s.calls[k].pc.Returned?
    ensures k in s'.calls && s'.calls == s.calls[k := s'.calls[k]]
    ensures s'.calls[k].kind == s.calls[k].kind && s'.calls[k].cert == s.calls[k].cert
    ensures s'.certDir == s.certDir && s'.clock == s.clock && s'.step == s.step
  {
    var c := s.calls[k];
    match c.pc
    case Admitted =>
      if input.fault || (!c.kind.TestKong? && c.cert !in s.certificates.rows) then Put(s, k, c.(pc := Returned))
      else Inserted(s, k)
    case Working => Put(s, k, Answered(c, input))
    case Obtained =>
      if !Writable(s.certDir, c.issued) then Put(s, k, c.(pc := Failing))
      else
        Put(s, k, c.(pc := if input.fault then Failing else ChainWritten)).(
          files := Wrote(s.files, ChainPath(s.certDir, c.cert), c.issued.chain, input))
    case ChainWritten =>
      Put(s, k, AfterKey(c, input)).(files := Wrote(s.files, KeyPath(s.certDir, c.cert), c.issued.key, input))
    case KeyWritten =>
      if MarkFails(s, c, input) then Abandoned(s, k)
      else Put(Marked(s, c), k, c.(pc := Completing, status := Success))
    case Failing =>
      Put(s, k, c.(pc := Completing, status := Failure)).(
        certificates := if input.fault then s.certificates else UpdateStatus(s.certificates, c.cert, Failed))
    case Recording => if input.fault then Abandoned(s, k) else Put(s, k, c.(pc := Completing))
    case Completing =>
      if input.fault || c.job !in s.jobs.rows then Abandoned(s, k) else Put(s, k, c.(pc := Fetched))
    case Fetched => if input.fault || c.job !in s.jobs.rows then Abandoned(s, k) else Finished(s, k)
    case _ => Put(s, k, Guarded(s, c, input))
  }

  /** Where the big statements leave their call. */
  lemma CallAfter(s: State, k: nat)
    requires k in s.calls
    ensures Inserted(s, k).calls == s.calls[k := s.calls[k].(pc := Working, job := s.jobs.nextId)]
    ensures Abandoned(s, k).calls == s.calls[k := s.calls[k].(pc := Returned)]
    ensures s.calls[k].job in s.jobs.rows ==> Finished(s, k).calls == s.calls[k := s.calls[k].(pc := Returned)]
    ensures Expiry(s.calls[k].issued.chain.blocks).Some? ==> Marked(s, s.calls[k]).calls == s.calls
  {
    hide Format, NewJob, FinishJob, InsertJob, MarkIssued, Expiry;
  }

  function Next(s: State, e: Event): State
    requires Enabled(s, e)
  {
    var s' :=
      match e
      case Tick(now) => s.(clock := now)
      case Add(profile) => s.(certificates := InsertCertificate(s.certificates, profile))
      case Edit(id, profile) => s.(certificates := UpdateProfile(s.certificates, id, profile))
      case Remove(id) =>
        s.(certificates := DeleteCertificate(s.certificates, id), jobs := ForgetCertificate(s.jobs, id))
      case ClearCompleted => s.(jobs := DeleteCompleted(s.jobs))
      case Begin(k, kind, cert, target) =>
        Put(s, k, Call(kind, cert, target, Begun, 0, 0, 0, NOTHING, Running))
      case Step(k, input) => Advance(s, k, input);
    s'.(step := s.step + 1)
  }

  /** Each state is the next one of its predecessor under the event between them. */
  ghost predicate Steps(states: seq<State>, events: seq<Event>) {
    && |states| == |events| + 1
    && forall i :: 0 <= i < |events| ==> Enabled(states[i], events[i]) && states[i + 1] == Next(states[i], events[i])
  }

  ghost predicate IsRun(states: seq<State>, events: seq<Event>) {
    Steps(states, events) && Initial(states[0])
  }

  /** What the events that are no step of a call do, row by row. */
  lemma OtherEvents(s: State, e: Event)
    requires Enabled(s, e) && !e.Step?
    ensures var s' := Next(s, e);
      && s'.files == s.files && s'.certDir == s.certDir && s'.step == s.step + 1 && s'.history == s.history
      && s'.clock == (if e.Tick? then e.now else s.clock)
      && (forall k :: k in s.calls ==> k in s'.calls && s'.calls[k] == s.calls[k])
    ensures var s' := Next(s, e);
      forall id :: id in s'.certificates.rows <==>
        (id in s.certificates.rows && !(e.Remove? && e.id == id)) || (e.Add? && id == s.certificates.nextId)
    ensures var s' := Next(s, e);
      forall id :: id in s.certificates.rows && id in s'.certificates.rows && id != s.certificates.nextId ==>
        s'.certificates.rows[id] ==
        if e.Edit? && e.id == id then s.certificates.rows[id].(profile := e.profile) else s.certificates.rows[id]
    ensures var s' := Next(s, e);
      forall job :: job in s'.jobs.rows <==>
        job in s.jobs.rows && (e.ClearCompleted? ==> s.jobs.rows[job].status == Running)
    ensures var s' := Next(s, e);
      forall job :: job in s'.jobs.rows ==>
        s'.jobs.rows[job].certificateId ==
          (if e.Remove? && s.jobs.rows[job].certificateId == Some(e.id) then None else s.jobs.rows[job].certificateId)
        && s'.jobs.rows[job].status == s.jobs.rows[job].status
        && s'.jobs.rows[job].startedAt == s.jobs.rows[job].startedAt
  {
  }

  /** How a sync or target test ends its job: as its one outcome says, dated by the clock. */
  lemma FinishedRow(s: State, k: nat, input: Input)
    requires k in s.calls
    ensures s.calls[k].pc.Working? && !IsAcme(s.calls[k].kind) ==>
      Advance(s, k, input).calls[k].pc == Recording
      && Advance(s, k, input).calls[k].status == if input.ok then Success else Failure
    ensures s.calls[k].pc.Fetched? && !input.fault && s.calls[k].job in s.jobs.rows ==>
      var job := s.jobs.rows[s.calls[k].job];
      && Advance(s, k, input).calls[k].pc == Returned
      && Advance(s, k, input).jobs.rows == s.jobs.rows[s.calls[k].job :=
        Job(job.certificateId, job.kongTargetId, job.kind, s.calls[k].status, job.startedAt, Some(Format(s.clock)))]
  {
    hide Format;
  }

  /** The row a call inserts: running, dated by the clock, without a certificate for a target test. */
  lemma InsertedRow(s: State, k: nat, input: Input)
    requires k in s.calls && s.calls[k].pc.Admitted?
    ensures var s', c := Advance(s, k, input), s.calls[k];
      if input.fault || (c.kind != TestKong && c.cert !in s.certificates.rows) then
        s'.jobs == s.jobs && s'.calls[k].pc == Returned
      else
        && s'.jobs.nextId == s.jobs.nextId + 1 && s'.calls[k].job == s.jobs.nextId
        && s'.jobs.rows == s.jobs.rows[s.jobs.nextId :=
          Job(if c.kind == TestKong then None else Some(c.cert), c.target, c.kind, Running, Format(s.clock), None)]
  {
    hide Format;
  }
}
