/**
 * The SQLite repositories and the certificate directory. A method is one SQL statement or transaction, or one
 * file operation; `fault` says that it fails.
 */
module Databases {
  import opened Wrappers
  import opened Text
  import opened TimeText
  import opened Domain
  import opened Tables
  import opened Pem
  import opened Links

  const NOT_FOUND := "not found"
  const FAULT := "database error"
  const FOREIGN_KEY := "FOREIGN KEY constraint failed"

  datatype Targets = Targets(ids: set<nat>, nextId: nat)

  /** A row of the link table as the use cases see it. */
  datatype Mapping = Mapping(
    cert: nat, target: nat, kongCertificateId: string, status: SyncStatus, lastSyncedAt: Option<int>, lastError: string)

  // ---------- ListSyncTargets ----------

  /** The targets below n that the certificate is linked to, in increasing order. */
  function LinkedBelow(t: Links, cert: nat, n: nat): (r: seq<nat>)
    ensures forall i, j :: 0 <= i < j < |r| ==> r[i] < r[j]
    ensures forall target :: target in r <==> target < n && (cert, target) in t.rows
  {
    if n == 0 then []
    else
      var below := LinkedBelow(t, cert, n - 1);
      assert forall i :: 0 <= i < |below| ==> below[i] in below;
      if (cert, n - 1) in t.rows then below + [n - 1] else below
  }

  predicate DatedLink(link: Link) {
    link.lastSyncedAt.Some? ==> Parse(link.lastSyncedAt.value).Some?
  }

  function MappingOf(pair: Pair, link: Link): Mapping
    requires DatedLink(link)
  {
    var at := if link.lastSyncedAt.Some? then Parse(link.lastSyncedAt.value) else None;
    Mapping(pair.0, pair.1, link.kongCertificateId, link.status, at, link.lastError)
  }

  /** nullableTime. */
  function NullableTime(t: Option<int>): Option<string> {
    if t.Some? then Some(Format(t.value)) else None
  }

  function LinkFrom(id: nat, m: Mapping): Link {
    Link(id, m.kongCertificateId, m.status, NullableTime(m.lastSyncedAt), m.lastError)
  }

  /** Reading a row and writing it back changes nothing, not even the text of its time. */
  lemma LinkFromMapping(pair: Pair, link: Link)
    requires DatedLink(link)
    ensures LinkFrom(link.id, MappingOf(pair, link)) == link
  {
    hide Format, Parse;
    if link.lastSyncedAt.Some? {
      FormatOfParse(link.lastSyncedAt.value);
    }
  }

  function UpsertLink(t: Links, m: Mapping): Links {
    var pair := (m.cert, m.target);
    if pair in t.rows then t.(rows := t.rows[pair := LinkFrom(t.rows[pair].id, m)])
    else Links(t.rows[pair := LinkFrom(t.nextId, m)], t.nextId + 1)
  }

  predicate DatedMapping(m: Mapping) {
    m.lastSyncedAt.Some? ==> InRange(m.lastSyncedAt.value)
  }

  lemma LinkFromDated(id: nat, m: Mapping)
    requires DatedMapping(m)
    ensures DatedLink(LinkFrom(id, m))
  {
    hide Format, Parse;
    if m.lastSyncedAt.Some? {
      ParseOfFormat(m.lastSyncedAt.value);
    }
  }

  lemma MappingIsDated(pair: Pair, link: Link)
    requires DatedLink(link)
    ensures DatedMapping(MappingOf(pair, link))
  {
    hide Format, Parse;
    if link.lastSyncedAt.Some? {
      FormatOfParse(link.lastSyncedAt.value);
    }
  }

  /** A nullable foreign key. */
  predicate Refers(id: Option<nat>, ids: set<nat>) {
    id.Some? ==> id.value in ids
  }

  function NewJob(certificateId: Option<nat>, kongTargetId: Option<nat>, kind: JobType, now: int): Job {
    Job(certificateId, kongTargetId, kind, Running, Format(now), None)
  }

  /** Every statement of SetLinkedTargets works: none fails, and no inserted row breaks a foreign key. */
  predicate Linkable(certificates: Certificates, targets: Targets, cert: nat, ids: seq<nat>, fault: Option<nat>) {
    && (fault.Some? ==> fault.value > |ids| + 2)
    && forall id :: id in ids ==> cert in certificates.rows && id in targets.ids
  }

  lemma NothingInserted(t: Links, cert: nat)
    ensures InsertAll(t, cert, []) == t
  {
  }

  lemma OneInserted(t: Links, cert: nat, ids: seq<nat>, i: nat)
    requires i < |ids|
    ensures InsertAll(t, cert, ids[..i + 1]) == InsertOrIgnore(InsertAll(t, cert, ids[..i]), cert, ids[i])
  {
    assert ids[..i + 1][..i] == ids[..i];
  }

  lemma RelinkedRows(t: Links, cert: nat, ids: seq<nat>)
    ensures var t' := Relinked(t, cert, ids);
      && t.nextId <= t'.nextId
      && forall pair :: pair in t'.rows ==>
        (pair in t.rows && t'.rows[pair] == t.rows[pair])
        || (pair.0 == cert && pair.1 in ids && t'.rows[pair].id < t'.nextId && DatedLink(t'.rows[pair]))
  {
    InsertAllMeaning(KeepOnly(t, cert, ids), cert, ids);
  }

  predicate RunsAcme(job: Job, id: nat) {
    job.status == Running && job.certificateId == Some(id) && (job.kind == Issue || job.kind == Renew)
  }

  /** No other row of the certificates table has changed. */
  ghost predicate SameOthers(t: Certificates, t': Certificates, id: nat) {
    && t'.nextId == t.nextId && t'.rows.Keys == t.rows.Keys
    && forall other :: other in t.rows && other != id ==> t'.rows[other] == t.rows[other]
  }

  class Database {
    var certificates: Certificates
    var jobs: Jobs
    var links: Links
    var targets: Targets

    /** Ids come from the counters, and links refer to rows that exist. */
    ghost predicate Valid()
      reads this
    {
      && (forall id :: id in certificates.rows ==> id < certificates.nextId)
      && (forall id :: id in jobs.rows ==> 0 < id < jobs.nextId)
      && 0 < jobs.nextId
      && (forall id :: id in targets.ids ==> id < targets.nextId)
      && (forall pair :: pair in links.rows ==>
        && pair.0 in certificates.rows && pair.1 in targets.ids
        && links.rows[pair].id < links.nextId && DatedLink(links.rows[pair]))
    }

    constructor ()
      ensures Valid()
      ensures certificates == Certificates(map[], 1) && jobs == Jobs(map[], 1)
      ensures links == Links(map[], 1) && targets == Targets({}, 1)
    {
      certificates, jobs, links, targets := Certificates(map[], 1), Jobs(map[], 1), Links(map[], 1), Targets({}, 1);
    }

    // ---------- certificates ----------

    method GetCertificate(id: nat, fault: bool) returns (r: Result<Certificate>)
      ensures r == if fault then Err(FAULT) else if id !in certificates.rows then Err(NOT_FOUND)
        else ScanCertificate(id, certificates.rows[id])
      ensures r.Ok? ==> var c, row := r.value, certificates.rows[id];
        && c.id == id && c.profile == row.profile && c.certPath == row.certPath && c.keyPath == row.keyPath
        && c.status == row.status && (c.expiresAt.Some? <==> row.expiresAt.Some?)
        && (c.expiresAt.Some? ==> c.expiresAt == Parse(row.expiresAt.value))
    {
      if fault {
        return Err(FAULT);
      }
      if id !in certificates.rows {
        return Err(NOT_FOUND);
      }
      r := ScanCertificate(id, certificates.rows[id]);
    }

    method CreateCertificate(profile: Profile, fault: bool) returns (r: Result<nat>)
      requires Valid()
      modifies this`certificates
      ensures Valid()
      ensures fault ==> r == Err(FAULT) && certificates == old(certificates)
      ensures !fault ==>
        r == Ok(old(certificates).nextId) && certificates == InsertCertificate(old(certificates), profile)
      ensures !fault ==> certificates.nextId == old(certificates).nextId + 1
      ensures !fault ==>
        certificates.rows == old(certificates).rows[r.value := CertificateRow(profile, "", "", None, Pending)]
    {
      if fault {
        return Err(FAULT);
      }
      r := Ok(certificates.nextId);
      certificates := InsertCertificate(certificates, profile);
    }

    method UpdateCertificate(id: nat, profile: Profile, fault: bool) returns (r: Outcome)
      requires Valid()
      modifies this`certificates
      ensures Valid()
      ensures r.Nil? <==> !fault && id in old(certificates).rows
      ensures certificates == if r.Nil? then UpdateProfile(old(certificates), id, profile) else old(certificates)
      ensures SameOthers(old(certificates), certificates, id)
      ensures r.Nil? ==> var row, row' := old(certificates).rows[id], certificates.rows[id];
        && row'.profile == profile
        && row'.certPath == row.certPath && row'.keyPath == row.keyPath
        && row'.expiresAt == row.expiresAt && row'.status == row.status
    {
      r := Affected(id in certificates.rows, fault);
      if r.Nil? {
        certificates := UpdateProfile(certificates, id, profile);
      }
    }

    method UpdateCertificateStatus(id: nat, status: CertificateStatus, fault: bool) returns (r: Outcome)
      requires Valid()
      modifies this`certificates
      ensures Valid()
      ensures r.Nil? <==> !fault && id in old(certificates).rows
      ensures certificates == if r.Nil? then UpdateStatus(old(certificates), id, status) else old(certificates)
      ensures SameOthers(old(certificates), certificates, id)
      ensures r.Nil? ==> var row, row' := old(certificates).rows[id], certificates.rows[id];
        && row'.status == status && row'.profile == row.profile
        && row'.certPath == row.certPath && row'.keyPath == row.keyPath && row'.expiresAt == row.expiresAt
    {
      r := Affected(id in certificates.rows, fault);
      if r.Nil? {
        certificates := UpdateStatus(certificates, id, status);
      }
    }

    method MarkCertificateIssued(id: nat, certPath: string, keyPath: string, expiresAt: int, fault: bool)
      returns (r: Outcome)
      requires Valid()
      modifies this`certificates
      ensures Valid()
      ensures r.Nil? <==> !fault && id in old(certificates).rows
      ensures certificates ==
        if r.Nil? then MarkIssued(old(certificates), id, certPath, keyPath, expiresAt) else old(certificates)
      ensures SameOthers(old(certificates), certificates, id)
      ensures r.Nil? ==> var row, row' := old(certificates).rows[id], certificates.rows[id];
        && row'.certPath == certPath && row'.keyPath == keyPath && row'.expiresAt == Some(Format(expiresAt))
        && row'.status == Active && row'.profile == row.profile
    {
      r := Affected(id in certificates.rows, fault);
      if r.Nil? {
        certificates := MarkIssued(certificates, id, certPath, keyPath, expiresAt);
      }
    }

    /** ON DELETE CASCADE for links, ON DELETE SET NULL for jobs. */
    method DeleteCertificateRow(id: nat, fault: bool) returns (r: Outcome)
      requires Valid()
      modifies this`certificates, this`jobs, this`links
      ensures Valid()
      ensures r.Nil? <==> !fault && id in old(certificates).rows
      ensures certificates == if r.Nil? then DeleteCertificate(old(certificates), id) else old(certificates)
      ensures jobs == if r.Nil? then ForgetCertificate(old(jobs), id) else old(jobs)
      ensures links == if r.Nil? then KeepOnly(old(links), id, []) else old(links)
      ensures r.Nil? ==> certificates.rows == old(certificates).rows - {id}
      ensures r.Nil? ==> certificates.nextId == old(certificates).nextId
      ensures r.Nil? ==> jobs.rows.Keys == old(jobs).rows.Keys && jobs.nextId == old(jobs).nextId
      ensures r.Nil? ==> forall job :: job in jobs.rows ==> var before := old(jobs).rows[job];
        jobs.rows[job] == if before.certificateId == Some(id) then before.(certificateId := None) else before
    {
      r := Affected(id in certificates.rows, fault);
      if r.Nil? {
        certificates := DeleteCertificate(certificates, id);
        jobs, links := ForgetCertificate(jobs, id), KeepOnly(links, id, []);
      }
    }

    /** RowsAffected() == 0 is reported as not found. */
    static method Affected(found: bool, fault: bool) returns (r: Outcome)
      ensures r == if fault then Error(FAULT) else if found then Nil else Error(NOT_FOUND)
    {
      r := if fault then Error(FAULT) else if found then Nil else Error(NOT_FOUND);
    }

    // ---------- jobs ----------

    /** The foreign keys of a job row are checked; `now` is the database's datetime('now'). */
    method CreateJob(certificateId: Option<nat>, kongTargetId: Option<nat>, kind: JobType, now: int, fault: bool)
      returns (r: Result<nat>)
      requires Valid()
      modifies this`jobs
      ensures Valid()
      ensures r.Ok? <==> !fault && Refers(certificateId, certificates.rows.Keys) && Refers(kongTargetId, targets.ids)
      ensures r.Ok? ==> r.value == old(jobs).nextId > 0
      ensures fault ==> r == Err(FAULT)
      ensures jobs == if r.Ok? then InsertJob(old(jobs), NewJob(certificateId, kongTargetId, kind, now)) else old(jobs)
      ensures r.Ok? ==> jobs.nextId == old(jobs).nextId + 1
      ensures r.Ok? ==>
        jobs.rows == old(jobs).rows[r.value := Job(certificateId, kongTargetId, kind, Running, Format(now), None)]
    {
      if fault {
        return Err(FAULT);
      }
      if !Refers(certificateId, certificates.rows.Keys) || !Refers(kongTargetId, targets.ids) {
        return Err(FOREIGN_KEY);
      }
      r := Ok(jobs.nextId);
      jobs := InsertJob(jobs, NewJob(certificateId, kongTargetId, kind, now));
    }

    method HasRunningCertificateJob(id: nat, fault: bool) returns (r: Result<bool>)
      ensures r == if fault then Err(FAULT) else Ok(HasRunning(jobs, id))
      ensures !fault ==>
        (r.value <==> id > 0 && exists job :: job in jobs.rows && RunsAcme(jobs.rows[job], id))
    {
      if fault {
        return Err(FAULT);
      }
      return Ok(HasRunning(jobs, id));
    }

    method LatestFailedCertificateJobSince(id: nat, since: int, fault: bool) returns (r: Result<Option<nat>>)
      ensures r == if fault then Err(FAULT) else Ok(LatestFailedSince(jobs, id, Format(since)))
      ensures id == 0 && !fault ==> r == Ok(None)
    {
      if fault {
        return Err(FAULT);
      }
      return Ok(LatestFailedSince(jobs, id, Format(since)));
    }

    method UpdateJob(id: nat, status: JobStatus, finishedAt: int, fault: bool) returns (r: Outcome)
      requires Valid()
      modifies this`jobs
      ensures Valid()
      ensures r.Nil? <==> !fault && id in old(jobs).rows
      ensures fault ==> r == Error(FAULT)
      ensures jobs == if r.Nil? then FinishJob(old(jobs), id, status, Format(finishedAt)) else old(jobs)
      ensures r.Nil? ==> jobs.nextId == old(jobs).nextId && var job := old(jobs).rows[id];
        jobs.rows == old(jobs).rows[id :=
          Job(job.certificateId, job.kongTargetId, job.kind, status, job.startedAt, Some(Format(finishedAt)))]
    {
      r := Affected(id in jobs.rows, fault);
      if r.Nil? {
        jobs := FinishJob(jobs, id, status, Format(finishedAt));
      }
    }

    method DeleteCompletedJobs(fault: bool) returns (r: Result<nat>)
      requires Valid()
      modifies this`jobs
      ensures Valid()
      ensures fault ==> r.Err? && jobs == old(jobs)
      ensures !fault ==> jobs == DeleteCompleted(old(jobs)) && r == Ok(|old(jobs).rows| - |jobs.rows|)
    {
      if fault {
        return Err(FAULT);
      }
      var before := jobs.rows;
      jobs := DeleteCompleted(jobs);
      FewerRows(jobs.rows, before);
      r := Ok(|before| - |jobs.rows|);
    }

    // ---------- links ----------

    method ListSyncTargets(cert: nat, fault: bool) returns (r: Result<seq<Mapping>>)
      requires Valid()
      ensures r.Err? <==> fault
      ensures r.Err? ==> r == Err(FAULT)
      ensures r.Ok? ==> r.value == Mappings(links, cert, LinkedBelow(links, cert, targets.nextId))
      ensures r.Ok? ==> forall i :: 0 <= i < |r.value| ==> var m := r.value[i];
        && m.cert == cert && (cert, m.target) in links.rows && var link := links.rows[(cert, m.target)];
        && m.kongCertificateId == link.kongCertificateId && m.status == link.status && m.lastError == link.lastError
        && (m.lastSyncedAt.Some? <==> link.lastSyncedAt.Some?)
        && (m.lastSyncedAt.Some? ==> Some(m.lastSyncedAt.value) == Parse(link.lastSyncedAt.value))
    {
      if fault {
        return Err(FAULT);
      }
      var ids := LinkedBelow(links, cert, targets.nextId);
      var mappings := [];
      for i := 0 to |ids|
        invariant mappings == Mappings(links, cert, ids[..i])
      {
        mappings := mappings + [MappingOf((cert, ids[i]), links.rows[(cert, ids[i])])];
        assert ids[..i + 1][..i] == ids[..i];
      }
      assert ids[..|ids|] == ids;
      r := Ok(mappings);
    }

    /**
     * One transaction: BEGIN, DELETE, an INSERT for each target, COMMIT, numbered from 0. `fault` is the number
     * of a statement that fails. On any error the transaction is rolled back.
     */
    method SetLinkedTargets(cert: nat, ids: seq<nat>, fault: Option<nat>) returns (r: Outcome)
      requires Valid()
      modifies this`links
      ensures Valid()
      ensures r.Nil? <==> Linkable(certificates, targets, cert, ids, fault)
      ensures links == if r.Nil? then Relinked(old(links), cert, ids) else old(links)
    {
      hide KeepOnly, InsertOrIgnore, InsertAll, DatedLink;
      NothingInserted(KeepOnly(links, cert, ids), cert);
      if fault == Some(0) || fault == Some(1) {
        return Error(FAULT);
      }
      var draft := KeepOnly(links, cert, ids);
      for i := 0 to |ids|
        invariant links == old(links) && Valid()
        invariant draft == InsertAll(KeepOnly(links, cert, ids), cert, ids[..i])
        invariant forall id :: id in ids[..i] ==> cert in certificates.rows && id in targets.ids
        invariant fault.Some? ==> fault.value >= i + 2
      {
        assert ids[i] in ids;
        if fault == Some(i + 2) {
          return Error(FAULT);
        }
        if cert !in certificates.rows || ids[i] !in targets.ids {
          return Error(FOREIGN_KEY);
        }
        OneInserted(KeepOnly(links, cert, ids), cert, ids, i);
        draft := InsertOrIgnore(draft, cert, ids[i]);
        assert ids[..i + 1] == ids[..i] + [ids[i]];
      }
      assert ids[..|ids|] == ids;
      if fault == Some(|ids| + 2) {
        return Error(FAULT);
      }
      RelinkedRows(links, cert, ids);
      links := draft;
      return Nil;
    }

    method UpsertSyncTarget(m: Mapping, fault: bool) returns (r: Outcome)
      requires Valid() && DatedMapping(m)
      modifies this`links
      ensures Valid()
      ensures fault ==> r == Error(FAULT)
      ensures r.Nil? <==> !fault && m.cert in certificates.rows && m.target in targets.ids
      ensures links == if r.Nil? then UpsertLink(old(links), m) else old(links)
      ensures r.Nil? ==> var pair, t := (m.cert, m.target), old(links);
        && links.rows == t.rows[pair := Link(if pair in t.rows then t.rows[pair].id else t.nextId, m.kongCertificateId,
          m.status, if m.lastSyncedAt.Some? then Some(Format(m.lastSyncedAt.value)) else None, m.lastError)]
        && links.nextId == if pair in t.rows then t.nextId else t.nextId + 1
    {
      if fault {
        return Error(FAULT);
      }
      if m.cert !in certificates.rows || m.target !in targets.ids {
        return Error(FOREIGN_KEY);
      }
      forall id: nat {
        LinkFromDated(id, m);
      }
      links := UpsertLink(links, m);
      return Nil;
    }
  }

  lemma FewerRows(a: map<nat, Job>, b: map<nat, Job>)
    requires a.Keys <= b.Keys
    ensures |a| <= |b|
  {
    assert b.Keys == a.Keys + (b.Keys - a.Keys);
  }

  function Mappings(t: Links, cert: nat, ids: seq<nat>): (r: seq<Mapping>)
    requires forall id :: id in ids ==> (cert, id) in t.rows && DatedLink(t.rows[(cert, id)])
    ensures |r| == |ids|
    ensures forall i :: 0 <= i < |ids| ==> r[i] == MappingOf((cert, ids[i]), t.rows[(cert, ids[i])])
  {
    if ids == [] then []
    else
      var n := |ids| - 1;
      Mappings(t, cert, ids[..n]) + [MappingOf((cert, ids[n]), t.rows[(cert, ids[n])])]
  }

  /** The content of a file the program needs, or the error it reports; `fault` is any other read error. */
  function ReadRequired(files: map<string, Pem>, path: string, what: string, fault: bool): Result<Pem> {
    if Blank(path) then Err("missing " + what + " file path")
    else if fault then Err("read " + what + " file " + path)
    else if path !in files then Err("missing " + what + " file: " + path)
    else Ok(files[path])
  }

  class Disk {
    var files: map<string, Pem>

    constructor ()
      ensures files == map[]
    {
      files := map[];
    }

    method ReadRequiredFile(path: string, what: string, fault: bool) returns (r: Result<Pem>)
      ensures r == ReadRequired(files, path, what, fault)
      ensures r.Ok? <==> !Blank(path) && !fault && path in files
      ensures r.Ok? ==> r.value == files[path]
    {
      if Blank(path) {
        return Err("missing " + what + " file path");
      }
      if fault {
        return Err("read " + what + " file " + path);
      }
      if path !in files {
        return Err("missing " + what + " file: " + path);
      }
      return Ok(files[path]);
    }

    /** `left` is what a failed write leaves in the file, if it touched it. */
    method WriteFile(path: string, content: Pem, fault: bool, left: Option<Pem>) returns (ok: bool)
      modifies this
      ensures ok == !fault
      ensures files == if ok then old(files)[path := content]
        else if left.Some? then old(files)[path := left.value] else old(files)
    {
      ok := !fault;
      if ok {
        files := files[path := content];
      } else if left.Some? {
        files := files[path := left.value];
      }
    }
  }
}
