/** Issuing and renewing one certificate, when nothing else runs. */
module AcmeUseCases {
  import opened Wrappers
  import opened Text
  import opened TimeText
  import opened Domain
  import opened Tables
  import opened Pem
  import opened Databases
  import opened JobUseCases
  import opened KongSync
  import opened AcmeMachine

  /**
   * What a call meets outside the program: the statements that fail, named by where the call stands; failing
   * reads of the existing files; the client's result; what failed writes leave behind; and three readings of the
   * clock.
   */
  datatype Env = Env(
    faults: set<Pc>, chainFault: bool, keyFault: bool, reply: Option<Issued>, leftChain: Option<Pem>,
    leftKey: Option<Pem>, guardAt: int, startedAt: int, finishedAt: int)

  /** The call returned an error; it returned nil after recording a failure; it returned nil after success. */
  datatype End = Erred | RecordedFailure | Delivered

  /** The input of the statement at `pc`. */
  function InputAt(env: Env, pc: Pc): Input {
    Input(pc in env.faults, env.reply, if pc.Obtained? then env.leftChain else env.leftKey, true)
  }

  // ---------- specification ----------

  /** The call gets as far as inserting its job. */
  predicate Admits(w: World, id: nat, env: Env) {
    && Begun !in env.faults && Timed !in env.faults && NotRunning !in env.faults && Admitted !in env.faults
    && id in w.certificates.rows && ScanCertificate(id, w.certificates.rows[id]).Ok?
    && AcmeOperationState(w.jobs, id, env.guardAt).Allowed?
  }

  function Started(w: World, kind: JobType, id: nat, env: Env): World {
    w.(jobs := InsertJob(w.jobs, Databases.NewJob(Some(id), None, kind, env.startedAt)))
  }

  /** The client's result; a renewal has none when its existing files cannot be read. */
  function Answer(w: World, kind: JobType, id: nat, env: Env): Option<Issued>
    requires id in w.certificates.rows
  {
    var row := w.certificates.rows[id];
    if kind.Renew? && ReadRequired(w.files, row.certPath, "existing certificate", env.chainFault).Err? then None
    else if kind.Renew? && ReadRequired(w.files, row.keyPath, "existing private key", env.keyFault).Err? then None
    else env.reply
  }

  predicate CompleteWorks(w: World, job: nat, env: Env) {
    Completing !in env.faults && Fetched !in env.faults && job in w.jobs.rows
  }

  function Completed(w: World, job: nat, status: JobStatus, env: Env): World {
    if CompleteWorks(w, job, env) then w.(jobs := FinishJob(w.jobs, job, status, Format(env.finishedAt))) else w
  }

  function Fail(w: World, id: nat, job: nat, env: Env): (r: (World, End))
    ensures !r.1.Delivered?
  {
    var w' := if Failing in env.faults then w else w.(certificates := UpdateStatus(w.certificates, id, Failed));
    (Completed(w', job, Failure, env),
     if Failing !in env.faults && id in w.certificates.rows && CompleteWorks(w, job, env) then RecordedFailure
     else Erred)
  }

  function WithFiles(files: map<string, Pem>, certDir: string, id: nat, issued: Issued, env: Env): map<string, Pem> {
    if !Writable(certDir, issued) then files
    else
      var files' := Wrote(files, ChainPath(certDir, id), issued.chain, InputAt(env, Obtained));
      if Obtained in env.faults then files'
      else Wrote(files', KeyPath(certDir, id), issued.key, InputAt(env, ChainWritten))
  }

  predicate FilesWork(certDir: string, issued: Issued, env: Env) {
    Writable(certDir, issued) && Obtained !in env.faults && ChainWritten !in env.faults
  }

  /** From the client's result to the end. */
  function Deliver(w: World, certDir: string, id: nat, job: nat, issued: Issued, env: Env): (World, End) {
    var filed := w.(files := WithFiles(w.files, certDir, id, issued, env));
    var expiry := Expiry(issued.chain.blocks);
    if !FilesWork(certDir, issued, env) || expiry.None? then Fail(filed, id, job, env)
    else if KeyWritten in env.faults || id !in w.certificates.rows then (filed, Erred)
    else
      var certificates := MarkIssued(w.certificates, id, ChainPath(certDir, id), KeyPath(certDir, id), expiry.value);
      (Completed(filed.(certificates := certificates), job, Success, env),
       if CompleteWorks(w, job, env) then Delivered else Erred)
  }

  function Operated(w: World, certDir: string, kind: JobType, id: nat, env: Env): (World, End) {
    if !Admits(w, id, env) then (w, Erred)
    else
      match Answer(w, kind, id, env)
      case None => Fail(Started(w, kind, id, env), id, w.jobs.nextId, env)
      case Some(issued) => Deliver(Started(w, kind, id, env), certDir, id, w.jobs.nextId, issued, env)
  }

  /** A renewal that succeeds goes on to sync; its error is the sync's. */
  function Renewed(w: World, certDir: string, id: nat, env: Env, sync: SyncEnv): (World, bool) {
    var (w', end) := Operated(w, certDir, Renew, id, env);
    if end.Delivered? then (SyncRun(w', id, sync).0, SyncRun(w', id, sync).1.Nil?) else (w', end.RecordedFailure?)
  }

  // ---------- the use case ----------

  method ParseCertificateExpiry(chain: Pem) returns (r: Result<NotAfter>)
    ensures r.Ok? <==> Expiry(chain.blocks).Some?
    ensures r.Ok? ==> Some(r.value) == Expiry(chain.blocks)
    ensures r.Ok? ==> FirstCertificateExpires(chain.blocks, r.value)
    ensures r.Err? ==> forall t :: !FirstCertificateExpires(chain.blocks, t)
  {
    forall t: NotAfter {
      ExpiryIff(chain.blocks, t);
    }
    var rest := chain.blocks;
    while |rest| > 0
      invariant Expiry(rest) == Expiry(chain.blocks)
      decreases |rest|
    {
      var block := rest[0];
      rest := rest[1..];
      if block.OtherBlock? {
        continue;
      }
      if block.notAfter.None? {
        return Err("parse issued certificate");
      }
      return Ok(block.notAfter.value);
    }
    return Err("issued certificate does not contain a valid PEM certificate");
  }

  class AcmeUseCase {
    const database: Database
    const disk: Disk
    const jobs: JobUseCase
    const certDir: string
    const kongSync: KongSyncUseCase

    constructor (certDir: string, kongSync: KongSyncUseCase)
      ensures this.certDir == certDir && this.kongSync == kongSync
      ensures database == kongSync.database && disk == kongSync.disk && jobs == kongSync.jobs
    {
      this.certDir, this.kongSync := certDir, kongSync;
      database, disk, jobs := kongSync.database, kongSync.disk, kongSync.jobs;
    }

    ghost predicate Valid()
      reads database
    {
      database == kongSync.database && disk == kongSync.disk && jobs == kongSync.jobs && kongSync.Valid()
    }

    ghost function Now(): World
      reads database, disk, kongSync.database, kongSync.disk, kongSync.client
    {
      kongSync.Now()
    }

    method IssueCertificate(id: nat, env: Env) returns (r: Outcome)
      requires Valid()
      modifies database`certificates, database`jobs, disk
      ensures Valid()
      ensures Now() == Operated(old(Now()), certDir, Issue, id, env).0
      ensures r.Nil? <==> !Operated(old(Now()), certDir, Issue, id, env).1.Erred?
    {
      hide Format, Admits, Deliver, Fail;
      var begun := BeginOperation(Issue, id, env);
      if begun.Err? {
        return Error(begun.error);
      }
      var c, job := begun.value.0, begun.value.1;
      if env.reply.None? {
        r := FailOperation(c.id, job, env);
        return;
      }
      var end := DeliverResult(c.id, job, env.reply.value, env);
      return if end.Erred? then Error("issue failed") else Nil;
    }

    method RenewCertificate(id: nat, env: Env, sync: SyncEnv) returns (r: Outcome)
      requires Valid()
      modifies database`certificates, database`jobs, database`links, disk, kongSync.client
      ensures Valid()
      ensures (Now(), r.Nil?) == Renewed(old(Now()), certDir, id, env, sync)
    {
      hide Format, Admits, Deliver, Fail, SyncRun, ReadRequired;
      var begun := BeginOperation(Renew, id, env);
      if begun.Err? {
        return Error(begun.error);
      }
      var c, job := begun.value.0, begun.value.1;
      var readable := ReadExistingCertificateFiles(c, env);
      if !readable || env.reply.None? {
        r := FailOperation(c.id, job, env);
        return;
      }
      var end := DeliverResult(c.id, job, env.reply.value, env);
      if end.Delivered? {
        r := kongSync.SyncCertificate(c.id, sync);
        return;
      }
      return if end.Erred? then Error("renew failed") else Nil;
    }

    /** The steps both operations start with: load the certificate, ask the guard, insert the job. */
    method BeginOperation(kind: JobType, id: nat, env: Env) returns (r: Result<(Certificate, nat)>)
      requires Valid()
      modifies database`jobs
      ensures Valid()
      ensures r.Ok? <==> Admits(old(Now()), id, env)
      ensures r.Ok? ==> id in database.certificates.rows && r.value.0.id == id
      ensures r.Ok? ==> Ok(r.value.0) == ScanCertificate(id, database.certificates.rows[id])
      ensures r.Ok? ==> r.value.1 == old(database.jobs).nextId
      ensures Now() == if r.Ok? then Started(old(Now()), kind, id, env) else old(Now())
    {
      hide Format, AcmeOperationState;
      var certificate := database.GetCertificate(id, Begun in env.faults);
      if certificate.Err? {
        return Err(certificate.error);
      }
      var c := certificate.value;
      var allowed := EnsureAcmeOperationAllowed(c.id, env);
      if allowed.Error? {
        return Err(allowed.error);
      }
      var job := jobs.Create(Some(c.id), None, kind, env.startedAt, Admitted in env.faults);
      if job.Err? {
        return Err(job.error);
      }
      return Ok((c, job.value));
    }

    /** No issue or renew job runs for the certificate and none has failed within the cooldown. */
    method EnsureAcmeOperationAllowed(id: nat, env: Env) returns (r: Outcome)
      ensures r.Nil? <==>
        Timed !in env.faults && NotRunning !in env.faults && AcmeOperationState(database.jobs, id, env.guardAt).Allowed?
    {
      hide Format, Parse, HasRunning, LatestFailedSince;
      var running := database.HasRunningCertificateJob(id, Timed in env.faults);
      if running.Err? {
        return Error(running.error);
      }
      if running.value {
        return Error("An issue or renew job is already running for this certificate.");
      }
      var failure := database.LatestFailedCertificateJobSince(id, env.guardAt - COOLDOWN, NotRunning in env.faults);
      if failure.Err? {
        return Error(failure.error);
      }
      if failure.value.Some? {
        return Error("The last issue or renew attempt failed recently. Wait 15 minutes before retrying.");
      }
      return Nil;
    }

    /** Both writes are attempted, and the first error does not keep the second from happening. */
    method FailOperation(id: nat, job: nat, env: Env) returns (r: Outcome)
      requires Valid() && id in database.certificates.rows
      modifies database`certificates, database`jobs
      ensures Valid()
      ensures Now() == Fail(old(Now()), id, job, env).0
      ensures r.Nil? <==> Fail(old(Now()), id, job, env).1.RecordedFailure?
    {
      hide Format;
      var statusErr := database.UpdateCertificateStatus(id, Failed, Failing in env.faults);
      var jobErr := jobs.Complete(job, Failure, env.finishedAt, Completing in env.faults, Fetched in env.faults);
      return if statusErr.Error? then statusErr else jobErr;
    }

    method ReadExistingCertificateFiles(c: Certificate, env: Env) returns (ok: bool)
      ensures ok == (ReadRequired(disk.files, c.certPath, "existing certificate", env.chainFault).Ok?
                     && ReadRequired(disk.files, c.keyPath, "existing private key", env.keyFault).Ok?)
    {
      var chain := disk.ReadRequiredFile(c.certPath, "existing certificate", env.chainFault);
      if chain.Err? {
        return false;
      }
      var key := disk.ReadRequiredFile(c.keyPath, "existing private key", env.keyFault);
      return key.Ok?;
    }

    method WriteIssuedFiles(id: nat, issued: Issued, env: Env) returns (r: Result<(string, string)>)
      modifies disk
      ensures disk.files == WithFiles(old(disk.files), certDir, id, issued, env)
      ensures r.Ok? <==> FilesWork(certDir, issued, env)
      ensures r.Ok? ==> r.value == (ChainPath(certDir, id), KeyPath(certDir, id))
      ensures r.Ok? ==> disk.files == old(disk.files)[r.value.0 := issued.chain][r.value.1 := issued.key]
      ensures Blank(certDir) || issued.chain.raw == "" || issued.key.raw == "" ==>
        r.Err? && disk.files == old(disk.files)
      ensures r.Err? && Obtained in env.faults && env.leftChain == None ==> disk.files == old(disk.files)
      ensures r.Err? && Obtained !in env.faults && env.leftKey == None ==>
        disk.files == old(disk.files) || disk.files == old(disk.files)[ChainPath(certDir, id) := issued.chain]
    {
      hide ChainPath, KeyPath, Blank;
      if Blank(certDir) {
        return Err("certificate directory is not configured");
      }
      if issued.chain.raw == "" {
        return Err("issued certificate is empty");
      }
      if issued.key.raw == "" {
        return Err("issued private key is empty");
      }
      var certPath, keyPath := ChainPath(certDir, id), KeyPath(certDir, id);
      var ok := disk.WriteFile(certPath, issued.chain, Obtained in env.faults, env.leftChain);
      if !ok {
        return Err("write certificate file " + certPath);
      }
      ok := disk.WriteFile(keyPath, issued.key, ChainWritten in env.faults, env.leftKey);
      if !ok {
        return Err("write private key file " + keyPath);
      }
      return Ok((certPath, keyPath));
    }

    method DeliverResult(id: nat, job: nat, issued: Issued, env: Env) returns (end: End)
      requires Valid() && id in database.certificates.rows
      modifies database`certificates, database`jobs, disk
      ensures Valid()
      ensures (Now(), end) == Deliver(old(Now()), certDir, id, job, issued, env)
    {
      hide Format, ChainPath, KeyPath, WithFiles, FilesWork, Fail;
      var paths := WriteIssuedFiles(id, issued, env);
      if paths.Err? {
        var r := FailOperation(id, job, env);
        return if r.Nil? then RecordedFailure else Erred;
      }
      var expiresAt := ParseCertificateExpiry(issued.chain);
      if expiresAt.Err? {
        var r := FailOperation(id, job, env);
        return if r.Nil? then RecordedFailure else Erred;
      }
      var (certPath, keyPath) := paths.value;
      var r := database.MarkCertificateIssued(id, certPath, keyPath, expiresAt.value, KeyWritten in env.faults);
      if r.Error? {
        return Erred;
      }
      r := jobs.Complete(job, Success, env.finishedAt, Completing in env.faults, Fetched in env.faults);
      return if r.Nil? then Delivered else Erred;
    }
  }
}
