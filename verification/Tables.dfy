/** The certificates and jobs tables: rows by id, and what each SQL statement does to them. */
module Tables {
  import opened Wrappers
  import opened Calendar
  import opened TimeText
  import opened Domain

  const COOLDOWN := 15 * MINUTE

  // ---------- certificates ----------

  datatype CertificateRow = CertificateRow(
    profile: Profile, certPath: string, keyPath: string, expiresAt: Option<string>, status: CertificateStatus)

  /** AUTOINCREMENT: an id is never given twice, even after its row is gone. */
  datatype Certificates = Certificates(rows: map<nat, CertificateRow>, nextId: nat)

  function InsertCertificate(t: Certificates, profile: Profile): Certificates {
    Certificates(t.rows[t.nextId := CertificateRow(profile, "", "", None, Pending)], t.nextId + 1)
  }

  function UpdateProfile(t: Certificates, id: nat, profile: Profile): Certificates {
    if id in t.rows then t.(rows := t.rows[id := t.rows[id].(profile := profile)]) else t
  }

  function UpdateStatus(t: Certificates, id: nat, status: CertificateStatus): Certificates {
    if id in t.rows then t.(rows := t.rows[id := t.rows[id].(status := status)]) else t
  }

  function MarkIssued(t: Certificates, id: nat, certPath: string, keyPath: string, expiresAt: int): Certificates {
    if id in t.rows then
      var row := t.rows[id].(
        certPath := certPath, keyPath := keyPath, expiresAt := Some(Format(expiresAt)), status := Active);
      t.(rows := t.rows[id := row])
    else t
  }

  function DeleteCertificate(t: Certificates, id: nat): Certificates {
    t.(rows := t.rows - {id})
  }

  /** scanCertificate. */
  function ScanCertificate(id: nat, row: CertificateRow): Result<Certificate> {
    match row.expiresAt
    case None => Ok(Certificate(id, row.profile, row.certPath, row.keyPath, None, row.status))
    case Some(text) =>
      match Parse(text)
      case None => Err("parse expires_at")
      case Some(t) => Ok(Certificate(id, row.profile, row.certPath, row.keyPath, Some(t), row.status))
  }

  // ---------- jobs ----------

  /** Timestamps are text; `startedAt` is written by the database when the row is inserted. */
  datatype Job = Job(
    certificateId: Option<nat>, kongTargetId: Option<nat>, kind: JobType, status: JobStatus,
    startedAt: string, finishedAt: Option<string>)

  datatype Jobs = Jobs(rows: map<nat, Job>, nextId: nat)

  function InsertJob(t: Jobs, job: Job): Jobs {
    Jobs(t.rows[t.nextId := job], t.nextId + 1)
  }

  function FinishJob(t: Jobs, id: nat, status: JobStatus, finishedAt: string): Jobs
    requires id in t.rows
  {
    t.(rows := t.rows[id := t.rows[id].(status := status, finishedAt := Some(finishedAt))])
  }

  function DeleteCompleted(t: Jobs): Jobs {
    t.(rows := map id | id in t.rows && t.rows[id].status == Running :: t.rows[id])
  }

  /** ON DELETE SET NULL. */
  function ForgetCertificate(t: Jobs, certificateId: nat): Jobs {
    t.(rows := map id | id in t.rows :: Forgotten(t.rows[id], certificateId))
  }

  function Forgotten(job: Job, certificateId: nat): Job {
    if job.certificateId == Some(certificateId) then job.(certificateId := None) else job
  }

  /** An issue or renew job of the certificate. */
  predicate IsAcmeJob(job: Job, certificateId: nat) {
    job.certificateId == Some(certificateId) && (job.kind.Issue? || job.kind.Renew?)
  }

  predicate HasRunning(t: Jobs, certificateId: nat) {
    && certificateId > 0
    && exists id :: id in t.rows && IsAcmeJob(t.rows[id], certificateId) && t.rows[id].status == Running
  }

  /** The rows of LatestFailedCertificateJobSince's WHERE clause; times are compared as text. */
  predicate FailedSince(job: Job, certificateId: nat, since: string) {
    IsAcmeJob(job, certificateId) && job.status == Failure && !TextBefore(job.startedAt, since)
  }

  /** Its ORDER BY started_at DESC, id DESC LIMIT 1, over the ids below n. */
  function LatestBelow(t: Jobs, certificateId: nat, since: string, n: nat): (r: Option<nat>)
    ensures r.Some? ==> r.value < n && r.value in t.rows && FailedSince(t.rows[r.value], certificateId, since)
    ensures r.None? ==> forall id :: id in t.rows && id < n ==> !FailedSince(t.rows[id], certificateId, since)
  {
    if n == 0 then None
    else
      var best := LatestBelow(t, certificateId, since, n - 1);
      if n - 1 !in t.rows || !FailedSince(t.rows[n - 1], certificateId, since) then best
      else if best.Some? && TextBefore(t.rows[n - 1].startedAt, t.rows[best.value].startedAt) then best
      else Some(n - 1)
  }

  function LatestFailedSince(t: Jobs, certificateId: nat, since: string): Option<nat> {
    if certificateId == 0 then None else LatestBelow(t, certificateId, since, t.nextId)
  }

  // ---------- acmeOperationState ----------

  datatype OperationState = Allowed | BlockedRunning | BlockedUntil(retryAt: int) | Broken

  /** The guard of issue and renew, when both queries see the same rows. */
  function AcmeOperationState(t: Jobs, certificateId: nat, now: int): OperationState {
    if HasRunning(t, certificateId) then BlockedRunning
    else
      match LatestFailedSince(t, certificateId, Format(now - COOLDOWN))
      case None => Allowed
      case Some(id) =>
        match Parse(t.rows[id].startedAt)
        case Some(started) => BlockedUntil(started + COOLDOWN)
        case None => Broken
  }

  // ---------- the guard read as instants ----------

  /** Every stored start time is the text of an instant. */
  ghost predicate Dated(t: Jobs) {
    forall id :: id in t.rows ==> id < t.nextId && Parse(t.rows[id].startedAt).Some?
  }

  function StartOf(job: Job): int
    requires Parse(job.startedAt).Some?
  {
    Parse(job.startedAt).value
  }

  predicate ClockOk(now: int) {
    COOLDOWN <= now && InRange(now)
  }

  lemma CooldownText(job: Job, now: int)
    requires Parse(job.startedAt).Some? && ClockOk(now)
    ensures !TextBefore(job.startedAt, Format(now - COOLDOWN)) <==> now < StartOf(job) + COOLDOWN + SECOND
  {
    hide Format, Parse;
    FormatOfParse(job.startedAt);
    FormatOrder(StartOf(job), now - COOLDOWN);
    StartIsWholeSecond(job);
    SecondBound(StartOf(job), now - COOLDOWN);
  }

  lemma StartIsWholeSecond(job: Job)
    requires Parse(job.startedAt).Some?
    ensures FloorSecond(StartOf(job)) == StartOf(job)
  {
    hide Format, Parse;
    FormatOfParse(job.startedAt);
    ParseOfFormat(StartOf(job));
  }

  lemma SecondBound(start: int, t: int)
    requires FloorSecond(start) == start
    ensures start < FloorSecond(t) <==> start + SECOND <= t
  {
    assert t == t / SECOND * SECOND + t % SECOND;
    assert start == start / SECOND * SECOND;
  }

  /** A failed issue or renew job of the certificate. */
  predicate IsFailed(job: Job, certificateId: nat) {
    IsAcmeJob(job, certificateId) && job.status == Failure
  }

  /** The newest failed job: the latest start, and the largest id among equal starts. */
  ghost predicate IsNewestFailed(t: Jobs, certificateId: nat, id: nat)
    requires Dated(t)
  {
    && id in t.rows && IsFailed(t.rows[id], certificateId)
    && forall j :: j in t.rows && IsFailed(t.rows[j], certificateId) ==>
      StartOf(t.rows[j]) < StartOf(t.rows[id]) || (StartOf(t.rows[j]) == StartOf(t.rows[id]) && j <= id)
  }

  lemma {:induction false} LatestIsNewest(t: Jobs, certificateId: nat, now: int, n: nat)
    requires Dated(t) && ClockOk(now)
    requires LatestBelow(t, certificateId, Format(now - COOLDOWN), n).Some?
    ensures var id := LatestBelow(t, certificateId, Format(now - COOLDOWN), n).value;
      forall j :: j in t.rows && j < n && IsFailed(t.rows[j], certificateId) ==>
        StartOf(t.rows[j]) < StartOf(t.rows[id]) || (StartOf(t.rows[j]) == StartOf(t.rows[id]) && j <= id)
  {
    hide Format, Parse, TextBefore;
    var since := Format(now - COOLDOWN);
    var id := LatestBelow(t, certificateId, since, n).value;
    var best := LatestBelow(t, certificateId, since, n - 1);
    if best.Some? {
      LatestIsNewest(t, certificateId, now, n - 1);
    }
    if n - 1 in t.rows && best.Some? {
      StartOrder(t.rows[n - 1], t.rows[best.value]);
    }
    forall j |
      j in t.rows && j < n && IsFailed(t.rows[j], certificateId) && !FailedSince(t.rows[j], certificateId, since)
      ensures StartOf(t.rows[j]) < StartOf(t.rows[id])
    {
      CooldownText(t.rows[j], now);
      CooldownText(t.rows[id], now);
    }
  }

  lemma StartOrder(a: Job, b: Job)
    requires Parse(a.startedAt).Some? && Parse(b.startedAt).Some?
    ensures TextBefore(a.startedAt, b.startedAt) <==> StartOf(a) < StartOf(b)
  {
    hide Format, Parse;
    FormatOfParse(a.startedAt);
    FormatOfParse(b.startedAt);
    FormatOrder(StartOf(a), StartOf(b));
    StartIsWholeSecond(a);
    StartIsWholeSecond(b);
  }

  /** Some failed job started at most fifteen minutes and a second ago. */
  ghost predicate RecentFailure(t: Jobs, certificateId: nat, now: int)
    requires Dated(t)
  {
    exists id :: id in t.rows && IsFailed(t.rows[id], certificateId) && now < StartOf(t.rows[id]) + COOLDOWN + SECOND
  }

  /**
   * With no job running, the guard blocks exactly while some failed job is less than 15 minutes and one
   * second old, and then the retry time is 15 minutes after the start of the newest failed job.
   */
  lemma GuardIsExact(t: Jobs, certificateId: nat, now: int)
    requires Dated(t) && ClockOk(now) && certificateId > 0 && !HasRunning(t, certificateId)
    ensures AcmeOperationState(t, certificateId, now).Allowed? <==> !RecentFailure(t, certificateId, now)
    ensures var state := AcmeOperationState(t, certificateId, now); state.Allowed? || state.BlockedUntil?
    ensures forall id ::
      AcmeOperationState(t, certificateId, now).BlockedUntil? && IsNewestFailed(t, certificateId, id) ==>
      AcmeOperationState(t, certificateId, now).retryAt == StartOf(t.rows[id]) + COOLDOWN
    ensures AcmeOperationState(t, certificateId, now).BlockedUntil? ==>
      exists id :: IsNewestFailed(t, certificateId, id)
  {
    hide Format, Parse, TextBefore, HasRunning;
    var since := Format(now - COOLDOWN);
    var latest := LatestFailedSince(t, certificateId, since);
    forall id | id in t.rows && IsFailed(t.rows[id], certificateId)
      ensures FailedSince(t.rows[id], certificateId, since) <==> now < StartOf(t.rows[id]) + COOLDOWN + SECOND
    {
      CooldownText(t.rows[id], now);
    }
    if latest.Some? {
      LatestIsNewest(t, certificateId, now, t.nextId);
      assert IsNewestFailed(t, certificateId, latest.value);
    }
  }

  /**
   * The guard in seconds: with no job running it allows the call exactly when every failed issue or renew job of the
   * certificate started at least 901 seconds ago; otherwise the retry time is 900 seconds after the newest of them.
   */
  lemma GuardInSeconds(t: Jobs, certificateId: nat, now: int, newest: nat)
    requires Dated(t) && ClockOk(now) && certificateId > 0 && !HasRunning(t, certificateId)
    requires IsNewestFailed(t, certificateId, newest)
    ensures var state, age := AcmeOperationState(t, certificateId, now), now - StartOf(t.rows[newest]);
      if age >= 901 * 1_000_000_000 then state.Allowed?
      else state == BlockedUntil(StartOf(t.rows[newest]) + 900 * 1_000_000_000)
  {
    hide AcmeOperationState, HasRunning;
    GuardIsExact(t, certificateId, now);
  }
}
