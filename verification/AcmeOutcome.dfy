/** What an issue or a renewal that returns nil has done. */
module AcmeOutcome {
  import opened Wrappers
  import opened Text
  import opened TimeText
  import opened Domain
  import opened Tables
  import opened Pem
  import opened Links
  import opened Databases
  import opened KongSync
  import opened SyncFacts
  import opened AcmeMachine
  import opened AcmeUseCases

  /** The part of the database's invariant that is used here. */
  ghost predicate Sane(w: World) {
    && (forall id :: id in w.jobs.rows ==> id < w.jobs.nextId)
    && (forall pair :: pair in w.links.rows ==> pair.1 < w.targets.nextId)
  }

  /** Every valid database is of this kind, so the theorems below hold of every call of the use case's methods. */
  lemma ValidIsSane(useCase: KongSyncUseCase)
    requires useCase.Valid()
    ensures Sane(useCase.Now())
  {
  }

  /** Only the certificate's own row and its two files may differ. */
  ghost predicate OnlyOwn(w: World, w': World, certDir: string, id: nat) {
    && w'.certificates.nextId == w.certificates.nextId && w'.certificates.rows.Keys == w.certificates.rows.Keys
    && (forall other :: other in w.certificates.rows && other != id ==>
      w'.certificates.rows[other] == w.certificates.rows[other])
    && (forall path :: path != ChainPath(certDir, id) && path != KeyPath(certDir, id) ==> SameFile(w, w', path))
  }

  predicate SameFile(w: World, w': World, path: string) {
    (path in w.files <==> path in w'.files) && (path in w.files ==> w'.files[path] == w.files[path])
  }

  function EndedJob(kind: JobType, id: nat, env: Env, status: JobStatus): Job {
    Job(Some(id), None, kind, status, Format(env.startedAt), Some(Format(env.finishedAt)))
  }

  /** The status is failed, one failed job has been added, and no link was touched and nothing sent. */
  predicate OperationFailed(w: World, w': World, kind: JobType, id: nat, env: Env)
    requires id in w.certificates.rows && id in w'.certificates.rows
  {
    && w'.certificates.rows[id] == w.certificates.rows[id].(status := Failed)
    && w'.jobs == InsertJob(w.jobs, EndedJob(kind, id, env, Failure))
    && w'.links == w.links && w'.requests == w.requests && w'.targets == w.targets
  }

  /** The row of a certificate that holds the given result. */
  function IssuedRow(row: CertificateRow, certDir: string, id: nat, expiry: NotAfter): CertificateRow {
    row.(certPath := ChainPath(certDir, id), keyPath := KeyPath(certDir, id), expiresAt := Some(Format(expiry)),
         status := Active)
  }

  function IssuedCertificate(row: CertificateRow, certDir: string, id: nat, expiry: NotAfter): Certificate {
    Certificate(id, row.profile, ChainPath(certDir, id), KeyPath(certDir, id), Some(expiry), Active)
  }

  /**
   * The status is active with the new expiry and files, the renew job succeeded, and every link says synced
   * after Kong was sent exactly the new chain, key and SNIs, or says failed with a reason.
   */
  ghost predicate RenewalDelivered(w: World, w': World, certDir: string, id: nat, issued: Issued, env: Env)
    requires id in w.certificates.rows && id in w'.certificates.rows && Expiry(issued.chain.blocks).Some?
  {
    var row, expiry := w.certificates.rows[id], Expiry(issued.chain.blocks).value;
    && FirstCertificateExpires(issued.chain.blocks, expiry)
    && w'.certificates.rows[id] == IssuedRow(row, certDir, id, expiry)
    && FilesAre(w', certDir, id, issued)
    && (forall job :: job in w.jobs.rows ==> job in w'.jobs.rows && w'.jobs.rows[job] == w.jobs.rows[job])
    && JobIs(w'.jobs, w.jobs.nextId, EndedJob(Renew, id, env, Success))
    && w'.links.rows.Keys == w.links.rows.Keys
    && |w.requests| <= |w'.requests| && w'.requests[..|w.requests|] == w.requests
    && (forall pair :: pair in w.links.rows && pair.0 != id ==> w'.links.rows[pair] == w.links.rows[pair])
    && (forall target :: (id, target) in w.links.rows ==>
      Settled(w, w', IssuedCertificate(row, certDir, id, expiry), target, Ok(issued)))
  }

  predicate FilesAre(w: World, certDir: string, id: nat, issued: Issued) {
    && ChainPath(certDir, id) in w.files && w.files[ChainPath(certDir, id)] == issued.chain
    && KeyPath(certDir, id) in w.files && w.files[KeyPath(certDir, id)] == issued.key
  }

  /** The client gave a result, the files could be written, and the chain has an expiry. */
  predicate Succeeds(w: World, certDir: string, kind: JobType, id: nat, env: Env)
    requires id in w.certificates.rows
  {
    var answer := Answer(w, kind, id, env);
    answer.Some? && FilesWork(certDir, answer.value, env) && Expiry(answer.value.chain.blocks).Some?
  }

  /**
   * An operation goes well exactly when: a renewal finds both its files, the client gives a result, a certificate
   * directory is set, neither text is empty, both writes work, and the first certificate of the chain parses.
   */
  lemma SucceedsIff(w: World, certDir: string, kind: JobType, id: nat, env: Env)
    requires id in w.certificates.rows
    ensures var row := w.certificates.rows[id];
      Succeeds(w, certDir, kind, id, env) <==>
      && (kind == Renew ==>
        && !Blank(row.certPath) && !env.chainFault && row.certPath in w.files
        && !Blank(row.keyPath) && !env.keyFault && row.keyPath in w.files)
      && env.reply.Some? && !Blank(certDir)
      && env.reply.value.chain.raw != "" && env.reply.value.key.raw != ""
      && Obtained !in env.faults && ChainWritten !in env.faults
      && exists t :: FirstCertificateExpires(env.reply.value.chain.blocks, t)
  {
    hide Blank, Expiry, FirstCertificateExpires;
    if env.reply.Some? {
      forall t: NotAfter {
        ExpiryIff(env.reply.value.chain.blocks, t);
      }
    }
  }

  /** The guard's view of a job: an issue or renew job of the certificate. */
  predicate Concerns(job: Job, id: nat) {
    job.certificateId == Some(id) && (job.kind == Issue || job.kind == Renew)
  }

  /**
   * A call inserts its job exactly when no statement before that fails, the certificate is there and readable, no
   * issue or renew job of it runs, and none that failed started less than 901 seconds ago.
   */
  lemma AdmitsIff(w: World, id: nat, env: Env)
    requires Dated(w.jobs) && ClockOk(env.guardAt) && id > 0
    ensures Admits(w, id, env) <==>
      && Begun !in env.faults && Timed !in env.faults && NotRunning !in env.faults && Admitted !in env.faults
      && id in w.certificates.rows
      && (w.certificates.rows[id].expiresAt.Some? ==> Parse(w.certificates.rows[id].expiresAt.value).Some?)
      && (forall job :: job in w.jobs.rows && Concerns(w.jobs.rows[job], id) ==> w.jobs.rows[job].status != Running)
      && (forall job :: job in w.jobs.rows && Concerns(w.jobs.rows[job], id) && w.jobs.rows[job].status == Failure ==>
        env.guardAt - Parse(w.jobs.rows[job].startedAt).value >= 901 * 1_000_000_000)
  {
    hide Format, Parse, AcmeOperationState, ClockOk;
    if HasRunning(w.jobs, id) {
      BlockedByRunning(w.jobs, id, env.guardAt);
    } else {
      GuardIsExact(w.jobs, id, env.guardAt);
    }
  }

  lemma BlockedByRunning(t: Jobs, id: nat, now: int)
    requires HasRunning(t, id)
    ensures !AcmeOperationState(t, id, now).Allowed?
  {
    hide Format, Parse, HasRunning;
  }

  // ---------- the failing ending ----------

  lemma FilesStayOwn(w: World, certDir: string, id: nat, issued: Issued, env: Env)
    ensures OnlyOwn(w, w.(files := WithFiles(w.files, certDir, id, issued, env)), certDir, id)
  {
    hide ChainPath, KeyPath, Writable;
  }

  lemma FailEnds(w: World, files: map<string, Pem>, certDir: string, kind: JobType, id: nat, env: Env)
    requires Sane(w) && id in w.certificates.rows && OnlyOwn(w, w.(files := files), certDir, id)
    requires Fail(Started(w, kind, id, env).(files := files), id, w.jobs.nextId, env).1.RecordedFailure?
    ensures var w' := Fail(Started(w, kind, id, env).(files := files), id, w.jobs.nextId, env).0;
      && id in w'.certificates.rows && OperationFailed(w, w', kind, id, env) && OnlyOwn(w, w', certDir, id)
  {
    hide ChainPath, KeyPath, Format;
    var w' := Fail(Started(w, kind, id, env).(files := files), id, w.jobs.nextId, env).0;
    forall path | path != ChainPath(certDir, id) && path != KeyPath(certDir, id)
      ensures SameFile(w, w', path)
    {
      assert SameFile(w, w.(files := files), path);
    }
  }

  // ---------- the succeeding ending ----------

  /**
   * The status is active with the expiry, paths and files of the client's result, one successful job has been
   * added, and no link was touched and nothing sent.
   */
  ghost predicate OperationIssued(
    w: World, w1: World, certDir: string, kind: JobType, id: nat, issued: Issued, env: Env)
    requires id in w.certificates.rows && Expiry(issued.chain.blocks).Some?
  {
    && w1 == w.(certificates := w1.certificates, jobs := w1.jobs, files := w1.files)
    && id in w1.certificates.rows
    && w1.certificates.rows[id] == IssuedRow(w.certificates.rows[id], certDir, id, Expiry(issued.chain.blocks).value)
    && w1.certificates.rows[id].certPath == certDir + "/" + Decimal(id) + "/fullchain.pem"
    && w1.certificates.rows[id].keyPath == certDir + "/" + Decimal(id) + "/privkey.pem"
    && FirstCertificateExpires(issued.chain.blocks, Expiry(issued.chain.blocks).value)
    && w1.jobs == InsertJob(w.jobs, EndedJob(kind, id, env, Success))
    && FilesAre(w1, certDir, id, issued) && OnlyOwn(w, w1, certDir, id)
  }

  lemma WrittenFiles(w: World, certDir: string, id: nat, issued: Issued, env: Env)
    requires FilesWork(certDir, issued, env)
    ensures FilesAre(w.(files := WithFiles(w.files, certDir, id, issued, env)), certDir, id, issued)
  {
    hide ChainPath, KeyPath, Writable;
    PathsDistinct(certDir, id, id);
  }

  lemma DeliverEnds(w: World, certDir: string, kind: JobType, id: nat, issued: Issued, env: Env)
    requires Sane(w) && id in w.certificates.rows && Expiry(issued.chain.blocks).Some?
    requires Deliver(Started(w, kind, id, env), certDir, id, w.jobs.nextId, issued, env).1.Delivered?
    ensures FilesWork(certDir, issued, env)
    ensures var w1 := Deliver(Started(w, kind, id, env), certDir, id, w.jobs.nextId, issued, env).0;
      OperationIssued(w, w1, certDir, kind, id, issued, env)
  {
    hide ChainPath, KeyPath, WithFiles, FilesWork, Fail, Format, Expiry, FirstCertificateExpires;
    PathsAreText(certDir, id);
    ExpiryIff(issued.chain.blocks, Expiry(issued.chain.blocks).value);
    WrittenFiles(w, certDir, id, issued, env);
    FilesStayOwn(w, certDir, id, issued, env);
    var w1 := Deliver(Started(w, kind, id, env), certDir, id, w.jobs.nextId, issued, env).0;
    forall path | path != ChainPath(certDir, id) && path != KeyPath(certDir, id)
      ensures SameFile(w, w1, path)
    {
      assert SameFile(w, w.(files := w1.files), path);
    }
  }

  /** The row just written reads back as the certificate with the new expiry. */
  lemma ReadsBack(row: CertificateRow, certDir: string, id: nat, expiry: NotAfter)
    ensures ScanCertificate(id, IssuedRow(row, certDir, id, expiry)) == Ok(IssuedCertificate(row, certDir, id, expiry))
  {
    hide ChainPath, KeyPath, Format, Parse, InRange;
    ParseOfFormat(expiry);
  }

  lemma SyncEnds(w: World, w1: World, certDir: string, id: nat, issued: Issued, env: Env, sync: SyncEnv)
    requires Sane(w) && id in w.certificates.rows && Expiry(issued.chain.blocks).Some?
    requires OperationIssued(w, w1, certDir, Renew, id, issued, env) && SyncRun(w1, id, sync).1.Nil?
    ensures var w' := SyncRun(w1, id, sync).0;
      && id in w'.certificates.rows && RenewalDelivered(w, w', certDir, id, issued, env) && OnlyOwn(w, w', certDir, id)
  {
    hide ChainPath, KeyPath, Format, SyncAll, Contents, ScanCertificate, Settled, LinkAfter, FinishedJob, OnlyOwn;
    hide RequestsFor, SyncRun, Expiry;
    var row, expiry := w.certificates.rows[id], Expiry(issued.chain.blocks).value;
    var c := IssuedCertificate(row, certDir, id, expiry);
    var ids := LinkedBelow(w1.links, id, w1.targets.nextId);
    var contents := Contents(w1.files, c, sync);
    SyncOfIssued(w1, row, certDir, id, expiry, sync);
    FinishedSync(w1, c, ids, contents, sync);
    var w' := SyncRun(w1, id, sync).0;
    SameOwn(w, w1, w', certDir, id);
    forall target | (id, target) in w.links.rows
      ensures Settled(w, w', c, target, Ok(issued))
    {
      LinkEnds(w, w1, certDir, c, issued, sync, target);
    }
  }

  /** The sync after an issue or renewal works on the certificate just marked issued. */
  lemma SyncOfIssued(w: World, row: CertificateRow, certDir: string, id: nat, expiry: NotAfter, sync: SyncEnv)
    requires id in w.certificates.rows && w.certificates.rows[id] == IssuedRow(row, certDir, id, expiry)
    requires SyncRun(w, id, sync).1.Nil?
    ensures var c := IssuedCertificate(row, certDir, id, expiry);
      SyncRun(w, id, sync) ==
      SyncAll(w, c, LinkedBelow(w.links, id, w.targets.nextId), Contents(w.files, c, sync), sync)
  {
    hide ChainPath, KeyPath, Format, SyncAll, Contents, ScanCertificate, LinkedBelow;
    ReadsBack(row, certDir, id, expiry);
  }

  lemma LinkEnds(
    w: World, w1: World, certDir: string, c: Certificate, issued: Issued, sync: SyncEnv, target: nat)
    requires Sane(w1) && w1.links == w.links && w1.requests == w.requests && (c.id, target) in w.links.rows
    requires FilesAre(w1, certDir, c.id, issued)
    requires c.certPath == ChainPath(certDir, c.id) && c.keyPath == KeyPath(certDir, c.id)
    requires SyncAll(w1, c, LinkedBelow(w1.links, c.id, w1.targets.nextId), Contents(w1.files, c, sync), sync).1.Nil?
    ensures var ids, contents := LinkedBelow(w1.links, c.id, w1.targets.nextId), Contents(w1.files, c, sync);
      var w' := SyncAll(w1, c, ids, contents, sync).0;
      && (c.id, target) in w'.links.rows && |w.requests| <= |w'.requests| && Settled(w, w', c, target, Ok(issued))
  {
    hide ChainPath, KeyPath, SyncAll, Contents, Settled;
    var ids, contents := LinkedBelow(w1.links, c.id, w1.targets.nextId), Contents(w1.files, c, sync);
    NewContents(w1, certDir, c, issued, sync);
    ReadErrorsSpeak(w1.files, c, sync);
    var i :| 0 <= i < |ids| && ids[i] == target;
    EveryLinkSettled(w1, c, ids, contents, sync, i);
    SettledWithIssued(w, w1, SyncAll(w1, c, ids, contents, sync).0, c, target, contents, issued);
  }

  lemma SameOwn(w: World, w1: World, w': World, certDir: string, id: nat)
    requires OnlyOwn(w, w1, certDir, id) && w'.certificates == w1.certificates && w'.files == w1.files
    ensures OnlyOwn(w, w', certDir, id)
  {
    hide ChainPath, KeyPath;
    forall path | path != ChainPath(certDir, id) && path != KeyPath(certDir, id)
      ensures SameFile(w, w', path)
    {
      assert SameFile(w, w1, path);
    }
  }

  /** The sync reads the files just written. */
  lemma NewContents(w: World, certDir: string, c: Certificate, issued: Issued, sync: SyncEnv)
    requires FilesAre(w, certDir, c.id, issued) && c.certPath == ChainPath(certDir, c.id)
    requires c.keyPath == KeyPath(certDir, c.id)
    ensures Contents(w.files, c, sync).Ok? ==> Contents(w.files, c, sync).value == issued
  {
    hide ChainPath, KeyPath, Blank;
  }

  lemma SettledWithIssued(
    w: World, w1: World, w': World, c: Certificate, target: nat, contents: Result<Issued>, issued: Issued)
    requires w1.links == w.links && w1.requests == w.requests && |w1.requests| <= |w'.requests|
    requires (c.id, target) in w.links.rows && (c.id, target) in w'.links.rows
    requires contents.Ok? ==> contents.value == issued
    requires Settled(w1, w', c, target, contents)
    ensures Settled(w, w', c, target, Ok(issued))
  {
    hide Carries;
  }

  // ---------- the theorems ----------

  /**
   * An issue or renewal that records its end without a repository error has ended in exactly one of two ways,
   * whatever the client, the disk and the database did; the client's result, the file writes and the expiry
   * decide which.
   */
  lemma OperationEnds(w: World, certDir: string, kind: JobType, id: nat, env: Env)
    requires Sane(w) && !Operated(w, certDir, kind, id, env).1.Erred?
    ensures var (w', end) := Operated(w, certDir, kind, id, env);
      && id in w.certificates.rows && id in w'.certificates.rows && OnlyOwn(w, w', certDir, id)
      && if Succeeds(w, certDir, kind, id, env) then
           end.Delivered? && OperationIssued(w, w', certDir, kind, id, Answer(w, kind, id, env).value, env)
         else end.RecordedFailure? && OperationFailed(w, w', kind, id, env)
  {
    hide ChainPath, KeyPath, Format, Deliver, Fail, WithFiles;
    hide FilesWork, Admits, Started, Answer, OnlyOwn, OperationFailed, OperationIssued;
    AdmittedExists(w, id, env);
    var answer := Answer(w, kind, id, env);
    if answer.None? {
      Untouched(w, certDir, id);
      StartedKeepsFiles(w, kind, id, env);
      assert Started(w, kind, id, env).(files := w.files) == Started(w, kind, id, env);
      FailEnds(w, w.files, certDir, kind, id, env);
    } else {
      ResultEnds(w, certDir, kind, id, answer.value, env);
    }
  }

  lemma AdmittedExists(w: World, id: nat, env: Env)
    ensures Admits(w, id, env) ==> id in w.certificates.rows
  {
    hide ScanCertificate, AcmeOperationState;
  }

  lemma StartedKeepsFiles(w: World, kind: JobType, id: nat, env: Env)
    ensures Started(w, kind, id, env).files == w.files
  {
    hide Format;
  }

  lemma Untouched(w: World, certDir: string, id: nat)
    ensures OnlyOwn(w, w.(files := w.files), certDir, id)
  {
    hide ChainPath, KeyPath;
  }

  /** The ending once the client has given a result. */
  lemma ResultEnds(w: World, certDir: string, kind: JobType, id: nat, issued: Issued, env: Env)
    requires Sane(w) && id in w.certificates.rows
    requires !Deliver(Started(w, kind, id, env), certDir, id, w.jobs.nextId, issued, env).1.Erred?
    ensures var (w1, end) := Deliver(Started(w, kind, id, env), certDir, id, w.jobs.nextId, issued, env);
      && id in w1.certificates.rows && OnlyOwn(w, w1, certDir, id)
      && if FilesWork(certDir, issued, env) && Expiry(issued.chain.blocks).Some? then
           end.Delivered? && OperationIssued(w, w1, certDir, kind, id, issued, env)
         else end.RecordedFailure? && OperationFailed(w, w1, kind, id, env)
  {
    hide ChainPath, KeyPath, Format, Fail, WithFiles, FilesWork, OnlyOwn, OperationFailed;
    if FilesWork(certDir, issued, env) && Expiry(issued.chain.blocks).Some? {
      DeliverEnds(w, certDir, kind, id, issued, env);
    } else {
      FilesStayOwn(w, certDir, id, issued, env);
      FailEnds(w, WithFiles(w.files, certDir, id, issued, env), certDir, kind, id, env);
    }
  }

  /** The issue method returns nil exactly when the operation is not in error, so this is what nil means there. */
  lemma IssueNilMeansFailedOrIssued(w: World, certDir: string, id: nat, env: Env)
    requires Sane(w) && !Operated(w, certDir, Issue, id, env).1.Erred?
    ensures var w' := Operated(w, certDir, Issue, id, env).0;
      && id in w.certificates.rows && id in w'.certificates.rows && OnlyOwn(w, w', certDir, id)
      && if Succeeds(w, certDir, Issue, id, env) then
           env.reply.Some? && OperationIssued(w, w', certDir, Issue, id, env.reply.value, env)
         else OperationFailed(w, w', Issue, id, env)
  {
    hide Operated, OnlyOwn, OperationFailed, OperationIssued, FilesWork, ReadRequired;
    OperationEnds(w, certDir, Issue, id, env);
  }

  /** A renewal that returns nil has failed on record, or has been delivered and every link settled. */
  lemma NilMeansFailedOrDelivered(w: World, certDir: string, id: nat, env: Env, sync: SyncEnv)
    requires Sane(w) && Renewed(w, certDir, id, env, sync).1
    ensures var w' := Renewed(w, certDir, id, env, sync).0;
      && id in w.certificates.rows && id in w'.certificates.rows && OnlyOwn(w, w', certDir, id)
      && if Succeeds(w, certDir, Renew, id, env) then
           RenewalDelivered(w, w', certDir, id, Answer(w, Renew, id, env).value, env)
         else OperationFailed(w, w', Renew, id, env)
  {
    hide Operated, SyncRun, OnlyOwn, OperationFailed, OperationIssued, RenewalDelivered, Answer, FilesWork;
    OperationEnds(w, certDir, Renew, id, env);
    var (w1, end) := Operated(w, certDir, Renew, id, env);
    if end.Delivered? {
      SyncEnds(w, w1, certDir, id, Answer(w, Renew, id, env).value, env, sync);
    }
  }

  // ---------- every ending, whatever fails ----------

  /**
   * What an admitted operation leaves, whichever statements fail. The row: the new paths and expiry when it went well
   * and could be marked; the status failed when it did not and that could be written; else what it was. The job:
   * finished accordingly when both statements of its end work and marking did not fail; else still running. The
   * operation is in error exactly when one of these statements failed. The files are written before the chain is
   * parsed, the chain before the key.
   */
  lemma OperationLeaves(w: World, certDir: string, kind: JobType, id: nat, env: Env)
    requires Sane(w) && Admits(w, id, env)
    ensures var (w', end) := Operated(w, certDir, kind, id, env);
      var good := Succeeds(w, certDir, kind, id, env);
      var rowWorks := if good then KeyWritten !in env.faults else Failing !in env.faults;
      var jobWorks := Completing !in env.faults && Fetched !in env.faults && (good ==> rowWorks);
      && w'.links == w.links && w'.requests == w.requests && w'.targets == w.targets
      && OnlyOwn(w, w', certDir, id) && id in w'.certificates.rows
      && (good ==> env.reply.Some? && Answer(w, kind, id, env) == env.reply)
      && FilesLeft(w, w', certDir, id, Answer(w, kind, id, env), env)
      && RowLeft(w.certificates.rows[id], w'.certificates.rows[id], certDir, id, rowWorks,
                 if good then Expiry(env.reply.value.chain.blocks) else None)
      && w'.jobs == InsertJob(w.jobs, JobLeft(kind, id, env, good, jobWorks))
      && (end.Erred? <==> !rowWorks || !jobWorks)
  {
    hide ChainPath, KeyPath, Format, Deliver, Fail, WithFiles, FilesWork, Admits, Answer, OnlyOwn, RowLeft, JobLeft;
    AdmittedExists(w, id, env);
    AnswerIsReply(w, kind, id, env);
    var answer := Answer(w, kind, id, env);
    if answer.None? {
      Untouched(w, certDir, id);
      StartedKeepsFiles(w, kind, id, env);
      assert Started(w, kind, id, env).(files := w.files) == Started(w, kind, id, env);
      FailLeaves(w, w.files, certDir, kind, id, env);
    } else {
      DeliverLeaves(w, certDir, kind, id, answer.value, env);
    }
  }

  lemma AnswerIsReply(w: World, kind: JobType, id: nat, env: Env)
    requires id in w.certificates.rows
    ensures Answer(w, kind, id, env).Some? ==> Answer(w, kind, id, env) == env.reply
  {
    hide ReadRequired;
  }

  /** Both files are new, or the chain alone, or neither, by the first write that fails. */
  predicate FilesLeft(w: World, w': World, certDir: string, id: nat, answer: Option<Issued>, env: Env) {
    var chainPath, keyPath := ChainPath(certDir, id), KeyPath(certDir, id);
    if answer.None? || Blank(certDir) || answer.value.chain.raw == "" || answer.value.key.raw == "" then
      w'.files == w.files
    else if Obtained in env.faults then
      w'.files == if env.leftChain.Some? then w.files[chainPath := env.leftChain.value] else w.files
    else
      var chained := w.files[chainPath := answer.value.chain];
      if ChainWritten !in env.faults then w'.files == chained[keyPath := answer.value.key]
      else w'.files == if env.leftKey.Some? then chained[keyPath := env.leftKey.value] else chained
  }

  /** `expiry` is that of the new chain when the operation went well. */
  predicate RowLeft(
    row: CertificateRow, row': CertificateRow, certDir: string, id: nat, works: bool, expiry: Option<NotAfter>)
  {
    if !works then row' == row
    else if expiry.None? then row' == row.(status := Failed)
    else
      row' == CertificateRow(
        row.profile, ChainPath(certDir, id), KeyPath(certDir, id), Some(Format(expiry.value)), Active)
  }

  function JobLeft(kind: JobType, id: nat, env: Env, good: bool, works: bool): Job {
    if works then EndedJob(kind, id, env, if good then Success else Failure)
    else Job(Some(id), None, kind, Running, Format(env.startedAt), None)
  }

  lemma FailLeaves(w: World, files: map<string, Pem>, certDir: string, kind: JobType, id: nat, env: Env)
    requires Sane(w) && id in w.certificates.rows && OnlyOwn(w, w.(files := files), certDir, id)
    ensures var (w', end) := Fail(Started(w, kind, id, env).(files := files), id, w.jobs.nextId, env);
      var rowWorks, jobWorks := Failing !in env.faults, Completing !in env.faults && Fetched !in env.faults;
      && w'.links == w.links && w'.requests == w.requests && w'.targets == w.targets && w'.files == files
      && OnlyOwn(w, w', certDir, id) && id in w'.certificates.rows
      && RowLeft(w.certificates.rows[id], w'.certificates.rows[id], certDir, id, rowWorks, None)
      && w'.jobs == InsertJob(w.jobs, JobLeft(kind, id, env, false, jobWorks))
      && (end.Erred? <==> !rowWorks || !jobWorks)
  {
    hide ChainPath, KeyPath, Format, OnlyOwn;
    OwnRow(w, Fail(Started(w, kind, id, env).(files := files), id, w.jobs.nextId, env).0, certDir, id);
  }

  lemma OwnRow(w: World, w': World, certDir: string, id: nat)
    requires OnlyOwn(w, w.(files := w'.files), certDir, id)
    requires w'.certificates.nextId == w.certificates.nextId && w'.certificates.rows.Keys == w.certificates.rows.Keys
    requires forall other :: other in w.certificates.rows && other != id ==>
      w'.certificates.rows[other] == w.certificates.rows[other]
    ensures OnlyOwn(w, w', certDir, id)
  {
    hide ChainPath, KeyPath;
    forall path | path != ChainPath(certDir, id) && path != KeyPath(certDir, id)
      ensures SameFile(w, w', path)
    {
      assert SameFile(w, w.(files := w'.files), path);
    }
  }

  lemma FilesAfterWrites(w: World, certDir: string, id: nat, issued: Issued, env: Env)
    ensures forall w': World :: w'.files == WithFiles(w.files, certDir, id, issued, env) ==>
      FilesLeft(w, w', certDir, id, Some(issued), env)
  {
    hide ChainPath, KeyPath, Blank;
  }

  lemma SuccessLeaves(w: World, certDir: string, kind: JobType, id: nat, issued: Issued, env: Env)
    requires Sane(w) && id in w.certificates.rows
    requires FilesWork(certDir, issued, env) && Expiry(issued.chain.blocks).Some?
    ensures var (w', end) := Deliver(Started(w, kind, id, env), certDir, id, w.jobs.nextId, issued, env);
      var rowWorks := KeyWritten !in env.faults;
      var jobWorks := Completing !in env.faults && Fetched !in env.faults && rowWorks;
      && w'.links == w.links && w'.requests == w.requests && w'.targets == w.targets
      && w'.files == WithFiles(w.files, certDir, id, issued, env)
      && OnlyOwn(w, w', certDir, id) && id in w'.certificates.rows
      && RowLeft(w.certificates.rows[id], w'.certificates.rows[id], certDir, id, rowWorks,
                 Expiry(issued.chain.blocks))
      && w'.jobs == InsertJob(w.jobs, JobLeft(kind, id, env, true, jobWorks))
      && (end.Erred? <==> !rowWorks || !jobWorks)
  {
    hide ChainPath, KeyPath, Format, Fail, WithFiles, FilesWork, Expiry, OnlyOwn;
    FilesStayOwn(w, certDir, id, issued, env);
    OwnRow(w, Deliver(Started(w, kind, id, env), certDir, id, w.jobs.nextId, issued, env).0, certDir, id);
  }

  lemma DeliverLeaves(w: World, certDir: string, kind: JobType, id: nat, issued: Issued, env: Env)
    requires Sane(w) && id in w.certificates.rows
    ensures var (w', end) := Deliver(Started(w, kind, id, env), certDir, id, w.jobs.nextId, issued, env);
      var good := FilesWork(certDir, issued, env) && Expiry(issued.chain.blocks).Some?;
      var rowWorks := if good then KeyWritten !in env.faults else Failing !in env.faults;
      var jobWorks := Completing !in env.faults && Fetched !in env.faults && (good ==> rowWorks);
      && w'.links == w.links && w'.requests == w.requests && w'.targets == w.targets
      && OnlyOwn(w, w', certDir, id) && id in w'.certificates.rows
      && RowLeft(w.certificates.rows[id], w'.certificates.rows[id], certDir, id, rowWorks,
                 if good then Expiry(issued.chain.blocks) else None)
      && FilesLeft(w, w', certDir, id, Some(issued), env)
      && w'.jobs == InsertJob(w.jobs, JobLeft(kind, id, env, good, jobWorks))
      && (end.Erred? <==> !rowWorks || !jobWorks)
  {
    hide ChainPath, KeyPath, Format, Fail, WithFiles, FilesWork, Expiry, FilesLeft, OnlyOwn, RowLeft, JobLeft;
    FilesAfterWrites(w, certDir, id, issued, env);
    FilesStayOwn(w, certDir, id, issued, env);
    if FilesWork(certDir, issued, env) && Expiry(issued.chain.blocks).Some? {
      SuccessLeaves(w, certDir, kind, id, issued, env);
    } else {
      FailLeaves(w, WithFiles(w.files, certDir, id, issued, env), certDir, kind, id, env);
    }
  }

  // ---------- both endings happen ----------

  /** A certificate that was just created and linked to one target. */
  function Created(profile: Profile): World {
    World(InsertCertificate(Certificates(map[], 1), profile), Jobs(map[], 1), Relinked(Links(map[], 1), 1, [1]),
          Targets({1}, 2), map[], [])
  }

  /** Nothing fails but, perhaps, the client. */
  function Smooth(reply: Option<Issued>, at: int): Env {
    Env({}, false, false, reply, None, None, at, at, at)
  }

  function SmoothSync(at: Instant): SyncEnv {
    SyncEnv(false, false, false, false, target => SyncInput(NoFault, Body("k"), at, at, at))
  }

  predicate Good(certDir: string, issued: Issued) {
    Writable(certDir, issued) && Expiry(issued.chain.blocks).Some?
  }

  lemma SmoothIsNoError(w: World, certDir: string, kind: JobType, id: nat, env: Env)
    requires env.faults == {} && Admits(w, id, env)
    ensures !Operated(w, certDir, kind, id, env).1.Erred?
  {
    hide Admits, Format, ChainPath, KeyPath, WithFiles, FilesWork, Answer;
    AdmittedExists(w, id, env);
  }

  /** The world after a first issue that works. */
  lemma FirstIssue(profile: Profile, certDir: string, issued: Issued, at: int)
    requires Good(certDir, issued)
    ensures var w, w' := Created(profile), Operated(Created(profile), certDir, Issue, 1, Smooth(Some(issued), at)).0;
      1 in w.certificates.rows && OperationIssued(w, w', certDir, Issue, 1, issued, Smooth(Some(issued), at))
  {
    hide Operated, OperationIssued, Writable, Expiry, Relinked, Format;
    var w, env := Created(profile), Smooth(Some(issued), at);
    NoJobsAllow(w.jobs, 1, at);
    assert Admits(w, 1, env) by {
      hide AcmeOperationState;
    }
    SmoothIsNoError(w, certDir, Issue, 1, env);
    OneLink();
    OperationEnds(w, certDir, Issue, 1, env);
  }

  lemma OneLink()
    ensures Relinked(Links(map[], 1), 1, [1]).rows == map[(1, 1) := Link(1, "", NotSynced, None, "")]
  {
    var empty := Links(map[], 1);
    assert KeepOnly(empty, 1, [1]) == empty;
    assert [1][..0] == [];
    assert InsertAll(empty, 1, [1]) == InsertOrIgnore(InsertAll(empty, 1, []), 1, 1);
  }

  lemma NoJobsAllow(t: Jobs, id: nat, now: int)
    requires forall job :: job in t.rows ==> t.rows[job].status.Success?
    ensures AcmeOperationState(t, id, now).Allowed?
  {
    hide Format, Parse;
  }

  /** A renewal of that certificate starts, and sees the client's answer. */
  lemma RenewalStarts(profile: Profile, w: World, certDir: string, issued: Issued, at: int, env: Env)
    requires Good(certDir, issued) && env.faults == {} && !env.chainFault && !env.keyFault
    requires 1 in Created(profile).certificates.rows
    requires OperationIssued(Created(profile), w, certDir, Issue, 1, issued, Smooth(Some(issued), at))
    ensures Admits(w, 1, env) && 1 in w.certificates.rows && Answer(w, Renew, 1, env) == env.reply
    ensures w.links == Created(profile).links && w.targets == Targets({1}, 2) && w.requests == []
  {
    hide Format, ChainPath, KeyPath, Writable, Relinked, ScanCertificate, AcmeOperationState, OnlyOwn, Blank;
    ReadsBack(Created(profile).certificates.rows[1], certDir, 1, Expiry(issued.chain.blocks).value);
    NoJobsAllow(w.jobs, 1, env.guardAt);
    PathsNotBlank(certDir, 1);
  }

  /**
   * A certificate that was created, linked and issued: a client error in its renewal gives the first ending, and
   * a good result the second, with the link synced.
   */
  lemma BothEndingsHappen(profile: Profile, certDir: string, issued: Issued, again: Issued, at: int, later: Instant)
    requires Good(certDir, issued) && Good(certDir, again) && ClockOk(at) && ClockOk(later) && at <= later
    ensures var w := Operated(Created(profile), certDir, Issue, 1, Smooth(Some(issued), at)).0;
      var (w1, ok1) := Renewed(w, certDir, 1, Smooth(None, later), SmoothSync(later));
      var (w2, ok2) := Renewed(w, certDir, 1, Smooth(Some(again), later), SmoothSync(later));
      && 1 in w.certificates.rows
      && ok1 && !Succeeds(w, certDir, Renew, 1, Smooth(None, later))
      && ok2 && Succeeds(w, certDir, Renew, 1, Smooth(Some(again), later))
      && (1, 1) in w2.links.rows && w2.links.rows[(1, 1)].status.Synced?
  {
    hide Operated, OperationIssued, OperationFailed, OnlyOwn, Admits, Answer;
    hide Writable, Expiry, ClockOk, Relinked, SyncRun, Sane;
    FirstIssue(profile, certDir, issued, at);
    var w := Operated(Created(profile), certDir, Issue, 1, Smooth(Some(issued), at)).0;
    RenewalStarts(profile, w, certDir, issued, at, Smooth(None, later));
    RenewalStarts(profile, w, certDir, issued, at, Smooth(Some(again), later));
    SmoothIsNoError(w, certDir, Renew, 1, Smooth(None, later));
    SmoothIsNoError(w, certDir, Renew, 1, Smooth(Some(again), later));
    IssuedIsSane(profile, w, certDir, issued, at);
    OperationEnds(w, certDir, Renew, 1, Smooth(None, later));
    OperationEnds(w, certDir, Renew, 1, Smooth(Some(again), later));
    OneSynced(w, Operated(w, certDir, Renew, 1, Smooth(Some(again), later)).0, profile, certDir, again, later);
  }

  lemma IssuedIsSane(profile: Profile, w: World, certDir: string, issued: Issued, at: int)
    requires Good(certDir, issued) && 1 in Created(profile).certificates.rows
    requires OperationIssued(Created(profile), w, certDir, Issue, 1, issued, Smooth(Some(issued), at))
    ensures Sane(w)
  {
    hide Format, ChainPath, KeyPath, Writable, OnlyOwn, Expiry, Relinked;
    OneLink();
  }

  lemma OneSynced(w: World, w1: World, profile: Profile, certDir: string, again: Issued, later: Instant)
    requires Good(certDir, again) && 1 in w.certificates.rows
    requires OperationIssued(w, w1, certDir, Renew, 1, again, Smooth(Some(again), later))
    requires w.links == Created(profile).links && w.targets == Targets({1}, 2)
    ensures var (w2, r) := SyncRun(w1, 1, SmoothSync(later));
      r.Nil? && (1, 1) in w2.links.rows && w2.links.rows[(1, 1)].status.Synced?
  {
    hide Format, ChainPath, KeyPath, Writable, OnlyOwn, Expiry, Relinked, ScanCertificate, SyncOne, Contents;
    OneLink();
    var row, expiry := w.certificates.rows[1], Expiry(again.chain.blocks).value;
    ReadsBack(row, certDir, 1, expiry);
    var c, sync := IssuedCertificate(row, certDir, 1, expiry), SmoothSync(later);
    var contents := Contents(w1.files, c, sync);
    assert LinkedBelow(w1.links, 1, 2) == [1] by {
      OnlyOne(w1.links);
    }
    ReadsNew(w1, certDir, c, again, sync);
    NoTargets(w1, c, contents, sync);
    OneMoreTarget(w1, c, [1], 0, contents, sync);
    assert [1][..1] == [1] && [1][..0] == [];
    SmoothOne(w1, c, again, later);
  }

  lemma OnlyOne(t: Links)
    requires t.rows.Keys == {(1, 1)}
    ensures LinkedBelow(t, 1, 2) == [1]
  {
    assert LinkedBelow(t, 1, 0) == [];
    assert LinkedBelow(t, 1, 1) == [];
  }

  lemma ReadsNew(w: World, certDir: string, c: Certificate, issued: Issued, sync: SyncEnv)
    requires FilesAre(w, certDir, c.id, issued) && c.certPath == ChainPath(certDir, c.id)
    requires c.keyPath == KeyPath(certDir, c.id)
    requires !sync.chainFault && !sync.keyFault
    ensures Contents(w.files, c, sync) == Ok(issued)
  {
    hide ChainPath, KeyPath, Blank;
    PathsNotBlank(certDir, c.id);
  }

  lemma SmoothOne(w: World, c: Certificate, issued: Issued, later: Instant)
    requires c.id == 1 && (1, 1) in w.links.rows
    ensures var (w', r) := SyncOne(w, c, 1, Ok(issued), SmoothSync(later).at(1));
      r.Nil? && (1, 1) in w'.links.rows && w'.links.rows[(1, 1)].status.Synced?
  {
    hide Format, RequestFor;
  }
}
