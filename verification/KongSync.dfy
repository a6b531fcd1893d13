/** Pushing a certificate to the Kong targets it is linked to. */
module KongSync {
  import opened Wrappers
  import opened Text
  import opened TimeText
  import opened Domain
  import opened Tables
  import opened Pem
  import opened Links
  import opened Databases
  import opened JobUseCases

  /** Everything a sequential operation can change, and the Kong targets it cannot. */
  datatype World = World(
    certificates: Certificates, jobs: Jobs, links: Links, targets: Targets, files: map<string, Pem>,
    requests: seq<Request>)

  type Instant = t: int | InRange(t) witness 0

  /** The statement of one target's sync that fails, if any. */
  datatype SyncFault = NoFault | AtGet | AtCreate | AtUpsert | AtFetch | AtUpdate

  datatype SyncInput = SyncInput(fault: SyncFault, reply: Reply, startedAt: int, syncedAt: Instant, finishedAt: int)

  /** What a sync meets outside the database: failing reads, and one input per target id. */
  datatype SyncEnv = SyncEnv(getFault: bool, listFault: bool, chainFault: bool, keyFault: bool, at: nat -> SyncInput)

  // ---------- specification ----------

  predicate Wildcard(snis: seq<string>) {
    exists sni :: sni in snis && '*' in sni
  }

  function Tags(snis: seq<string>): seq<string> {
    ["cert-lite", if Wildcard(snis) then "wildcard" else "non-wildcard"]
  }

  /** Both files of the certificate, or the error of the first that cannot be read. */
  function Contents(files: map<string, Pem>, c: Certificate, env: SyncEnv): Result<Issued> {
    match ReadRequired(files, c.certPath, "certificate", env.chainFault)
    case Err(e) => Err(e)
    case Ok(chain) =>
      match ReadRequired(files, c.keyPath, "private key", env.keyFault)
      case Err(e) => Err(e)
      case Ok(key) => Ok(Issued(chain, key))
  }

  function ReadError(contents: Result<Issued>): Option<string> {
    if contents.Err? then Some(contents.error) else None
  }

  function RequestFor(c: Certificate, target: nat, link: Link, contents: Issued): Request {
    Request(target, MethodFor(link.kongCertificateId), link.kongCertificateId, contents.chain.raw, contents.key.raw,
            c.profile.snis, Tags(c.profile.snis))
  }

  function JobOutcome(link: Link): JobStatus {
    if link.status.Synced? then Success else Failure
  }

  function SyncJob(c: Certificate, target: nat, input: SyncInput): Job {
    NewJob(Some(c.id), Some(target), Sync, input.startedAt)
  }

  /** A sync touches one row of the link table, the jobs and the requests. */
  ghost predicate SameBut(w: World, w': World, pair: Pair) {
    && w' == w.(jobs := w'.jobs, links := w'.links, requests := w'.requests)
    && w'.links.nextId == w.links.nextId && w'.links.rows.Keys == w.links.rows.Keys
    && forall p :: p in w.links.rows && p != pair ==> w'.links.rows[p] == w.links.rows[p]
  }

  /** One linked target, statement by statement; an error leaves what was done so far, and the job running. */
  function SyncTarget(
    w: World, c: Certificate, target: nat, contents: Result<Issued>, input: SyncInput): (r: (World, Outcome))
    requires (c.id, target) in w.links.rows
    ensures SameBut(w, r.0, (c.id, target))
  {
    if input.fault.AtCreate? then (w, Error(FAULT))
    else
      var link, job := w.links.rows[(c.id, target)], w.jobs.nextId;
      var link' := SyncedLink(link, ReadError(contents), input.reply, input.syncedAt);
      var sent := w.(
        jobs := InsertJob(w.jobs, SyncJob(c, target, input)),
        requests := w.requests + if contents.Ok? then [RequestFor(c, target, link, contents.value)] else []);
      if input.fault.AtUpsert? then (sent, Error(FAULT))
      else
        var linked := sent.(links := w.links.(rows := w.links.rows[(c.id, target) := link']));
        if input.fault.AtFetch? || input.fault.AtUpdate? then (linked, Error(FAULT))
        else (linked.(jobs := FinishJob(linked.jobs, job, JobOutcome(link'), Format(input.finishedAt))), Nil)
  }

  function SyncOne(
    w: World, c: Certificate, target: nat, contents: Result<Issued>, input: SyncInput): (r: (World, Outcome))
    ensures SameBut(w, r.0, (c.id, target))
  {
    if input.fault.AtGet? then (w, Error(FAULT))
    else if (c.id, target) !in w.links.rows then (w, Nil)
    else SyncTarget(w, c, target, contents, input)
  }

  /** The targets one after the other, up to the first error. */
  function SyncAll(w: World, c: Certificate, ids: seq<nat>, contents: Result<Issued>, env: SyncEnv): (World, Outcome) {
    if ids == [] then (w, Nil)
    else
      var n := |ids| - 1;
      var (w', r) := SyncAll(w, c, ids[..n], contents, env);
      if r.Error? then (w', r) else SyncOne(w', c, ids[n], contents, env.at(ids[n]))
  }

  /** The certificate and the ids it is linked to. */
  function SyncInputs(w: World, id: nat, env: SyncEnv): Result<(Certificate, seq<nat>)> {
    if env.getFault then Err(FAULT)
    else if id !in w.certificates.rows then Err(NOT_FOUND)
    else
      match ScanCertificate(id, w.certificates.rows[id])
      case Err(e) => Err(e)
      case Ok(c) => if env.listFault then Err(FAULT) else Ok((c, LinkedBelow(w.links, id, w.targets.nextId)))
  }

  function SyncRun(w: World, id: nat, env: SyncEnv): (World, Outcome) {
    match SyncInputs(w, id, env)
    case Err(e) => (w, Error(e))
    case Ok((c, ids)) => SyncAll(w, c, ids, Contents(w.files, c, env), env)
  }

  function SyncTargetRun(w: World, id: nat, target: nat, env: SyncEnv): (World, Outcome) {
    match SyncInputs(w, id, env)
    case Err(e) => (w, Error(e))
    case Ok((c, ids)) =>
      if target !in ids then (w, Error(NOT_FOUND))
      else SyncOne(w, c, target, Contents(w.files, c, env), env.at(target))
  }

  // ---------- the use case ----------

  method KongCertificateTags(snis: seq<string>) returns (tags: seq<string>)
    ensures tags == Tags(snis)
    ensures tags == ["cert-lite", if exists sni :: sni in snis && '*' in sni then "wildcard" else "non-wildcard"]
  {
    tags := ["cert-lite", "non-wildcard"];
    for i := 0 to |snis|
      invariant tags == ["cert-lite", "non-wildcard"]
      invariant forall sni :: sni in snis[..i] ==> '*' !in sni
    {
      TrimKeeps(snis[i], '*');
      if '*' in Trim(snis[i]) {
        tags := tags[1 := "wildcard"];
        break;
      }
    }
  }

  class KongSyncUseCase {
    const database: Database
    const disk: Disk
    const client: AdminClient
    const jobs: JobUseCase

    constructor (database: Database, disk: Disk, client: AdminClient, jobs: JobUseCase)
      requires jobs.database == database
      ensures this.database == database && this.disk == disk && this.client == client && this.jobs == jobs
    {
      this.database, this.disk, this.client, this.jobs := database, disk, client, jobs;
    }

    ghost predicate Valid()
      reads database
    {
      jobs.database == database && database.Valid()
    }

    ghost function Now(): World
      reads database, disk, client
    {
      World(database.certificates, database.jobs, database.links, database.targets, disk.files, client.requests)
    }

    method SyncCertificate(id: nat, env: SyncEnv) returns (r: Outcome)
      requires Valid()
      modifies database`jobs, database`links, client
      ensures Valid()
      ensures (Now(), r) == SyncRun(old(Now()), id, env)
    {
      hide SyncTarget, DatedLink, MappingOf, LinkedBelow, Contents, SyncOne;
      var inputs := GetInputs(id, env);
      if inputs.Err? {
        return Error(inputs.error);
      }
      var c, links := inputs.value.0, inputs.value.1;
      if |links| == 0 {
        return Nil;
      }
      var contents := ReadFiles(c, env);
      r := SyncEach(c, links, contents, env);
    }

    method SyncEach(c: Certificate, links: seq<Mapping>, contents: Result<Issued>, env: SyncEnv) returns (r: Outcome)
      requires Valid() && c.id in database.certificates.rows && Lists(links, database.links, c.id)
      modifies database`jobs, database`links, client
      ensures Valid()
      ensures (Now(), r) == SyncAll(old(Now()), c, TargetsOf(links), contents, env)
    {
      hide SyncTarget, DatedLink, MappingOf, SyncOne, SyncAll;
      ghost var w := Now();
      ghost var ids := TargetsOf(links);
      NoTargets(w, c, contents, env);
      for i := 0 to |links|
        invariant Valid()
        invariant database.certificates == w.certificates
        invariant (Now(), Nil) == SyncAll(w, c, ids[..i], contents, env)
        invariant Lists(links[i..], database.links, c.id)
      {
        OneMoreTarget(w, c, ids, i, contents, env);
        assert links[i..][0] == links[i] && links[i..][1..] == links[i + 1..];
        ghost var before := database.links;
        r := SyncIfPresent(c, links[i], contents, env.at(links[i].target));
        if r.Error? {
          StopsAt(w, c, ids, i + 1, contents, env);
          return;
        }
        StillLists(links[i..], before, database.links, c.id);
      }
      assert ids[..|ids|] == ids;
      return Nil;
    }

    /** A target that is gone is skipped. */
    method SyncIfPresent(c: Certificate, link: Mapping, contents: Result<Issued>, input: SyncInput) returns (r: Outcome)
      requires Valid() && c.id in database.certificates.rows
      requires link.cert == c.id && (c.id, link.target) in database.links.rows
      requires link == MappingOf((c.id, link.target), database.links.rows[(c.id, link.target)])
      modifies database`jobs, database`links, client
      ensures Valid()
      ensures (Now(), r) == SyncOne(old(Now()), c, link.target, contents, input)
    {
      hide SyncTarget;
      if input.fault.AtGet? {
        return Error(FAULT);
      }
      if link.target !in database.targets.ids {
        return Nil;
      }
      r := SyncLinkedTarget(c, link, contents, input);
    }

    method SyncCertificateTarget(id: nat, kongTargetId: nat, env: SyncEnv) returns (r: Outcome)
      requires Valid()
      modifies database`jobs, database`links, client
      ensures Valid()
      ensures (Now(), r) == SyncTargetRun(old(Now()), id, kongTargetId, env)
    {
      var inputs := GetInputs(id, env);
      if inputs.Err? {
        return Error(inputs.error);
      }
      var c, links := inputs.value.0, inputs.value.1;
      var found: Option<Mapping> := None;
      for i := 0 to |links|
        invariant found.None?
        invariant forall j :: 0 <= j < i ==> links[j].target != kongTargetId
      {
        if links[i].target == kongTargetId {
          found := Some(links[i]);
          break;
        }
      }
      if found.None? {
        return Error(NOT_FOUND);
      }
      if env.at(kongTargetId).fault.AtGet? {
        return Error(FAULT);
      }
      if kongTargetId !in database.targets.ids {
        return Error(NOT_FOUND);
      }
      var contents := ReadFiles(c, env);
      r := SyncLinkedTarget(c, found.value, contents, env.at(kongTargetId));
    }

    method GetInputs(id: nat, env: SyncEnv) returns (r: Result<(Certificate, seq<Mapping>)>)
      requires Valid()
      ensures r.Err? <==> SyncInputs(Now(), id, env).Err?
      ensures r.Err? ==> r.error == SyncInputs(Now(), id, env).error
      ensures r.Ok? ==> r.value.0 == SyncInputs(Now(), id, env).value.0 && r.value.0.id == id
      ensures r.Ok? ==> r.value.0.id in database.certificates.rows && Lists(r.value.1, database.links, id)
      ensures r.Ok? ==> TargetsOf(r.value.1) == SyncInputs(Now(), id, env).value.1
    {
      var c := database.GetCertificate(id, env.getFault);
      if c.Err? {
        return Err(c.error);
      }
      var links := database.ListSyncTargets(id, env.listFault);
      if links.Err? {
        return Err(links.error);
      }
      return Ok((c.value, links.value));
    }

    method ReadFiles(c: Certificate, env: SyncEnv) returns (r: Result<Issued>)
      ensures r == Contents(disk.files, c, env)
    {
      var chain := disk.ReadRequiredFile(c.certPath, "certificate", env.chainFault);
      if chain.Err? {
        return Err(chain.error);
      }
      var key := disk.ReadRequiredFile(c.keyPath, "private key", env.keyFault);
      if key.Err? {
        return Err(key.error);
      }
      return Ok(Issued(chain.value, key.value));
    }

    method SyncLinkedTarget(c: Certificate, link: Mapping, contents: Result<Issued>, input: SyncInput)
      returns (r: Outcome)
      requires Valid() && !input.fault.AtGet? && c.id in database.certificates.rows
      requires link.cert == c.id && (c.id, link.target) in database.links.rows
      requires link == MappingOf((c.id, link.target), database.links.rows[(c.id, link.target)])
      modifies database`jobs, database`links, client
      ensures Valid()
      ensures (Now(), r) == SyncTarget(old(Now()), c, link.target, contents, input)
    {
      hide Format, Parse, SyncedLink, DatedLink, MappingOf, NullableTime, RequestFor;
      var job := jobs.Create(Some(c.id), Some(link.target), Sync, input.startedAt, input.fault.AtCreate?);
      if job.Err? {
        return Error(job.error);
      }
      var mapping, status := Push(c, link, contents, input);
      r := Record(job.value, mapping, status, input);
    }

    /** The last two statements of a sync: the link row, then the end of the job. */
    method Record(job: nat, mapping: Mapping, status: JobStatus, input: SyncInput) returns (r: Outcome)
      requires Valid() && DatedMapping(mapping) && !status.Running? && job in database.jobs.rows
      requires mapping.cert in database.certificates.rows && mapping.target in database.targets.ids
      modifies database`jobs, database`links
      ensures Valid()
      ensures r == if input.fault.AtUpsert? || input.fault.AtFetch? || input.fault.AtUpdate? then Error(FAULT) else Nil
      ensures database.links ==
        if input.fault.AtUpsert? then old(database.links) else UpsertLink(old(database.links), mapping)
      ensures database.jobs ==
        if r.Error? then old(database.jobs) else FinishJob(old(database.jobs), job, status, Format(input.finishedAt))
    {
      hide Format;
      r := database.UpsertSyncTarget(mapping, input.fault.AtUpsert?);
      if r.Error? {
        return;
      }
      r := jobs.Complete(job, status, input.finishedAt, input.fault.AtFetch?, input.fault.AtUpdate?);
    }

    /** The part of a sync before the first write: the new link fields and how the job ends. */
    method Push(c: Certificate, link: Mapping, contents: Result<Issued>, input: SyncInput)
      returns (mapping: Mapping, status: JobStatus)
      requires Valid() && link.cert == c.id && (c.id, link.target) in database.links.rows
      requires link == MappingOf((c.id, link.target), database.links.rows[(c.id, link.target)])
      modifies client
      ensures DatedMapping(mapping) && mapping.cert == c.id && mapping.target == link.target
      ensures var row := database.links.rows[(c.id, link.target)];
        && LinkFrom(row.id, mapping) == SyncedLink(row, ReadError(contents), input.reply, input.syncedAt)
        && status == JobOutcome(LinkFrom(row.id, mapping))
        && client.requests ==
          old(client.requests) + if contents.Ok? then [RequestFor(c, link.target, row, contents.value)] else []
    {
      hide Format, Parse;
      ghost var row := database.links.rows[(c.id, link.target)];
      MappingIsDated((c.id, link.target), row);
      LinkFromMapping((c.id, link.target), row);
      mapping, status := link, Success;
      if contents.Err? {
        mapping := mapping.(status := SyncFailed, lastError := contents.error);
        status := Failure;
      } else {
        var tags := KongCertificateTags(c.profile.snis);
        var answer := client.SyncCertificate(link.target, link.kongCertificateId, contents.value.chain.raw,
                                             contents.value.key.raw, c.profile.snis, tags, input.reply);
        match answer {
          case Err(e) =>
            mapping := mapping.(status := SyncFailed, lastError := e);
            status := Failure;
          case Ok(id) =>
            mapping := mapping.(
              kongCertificateId := id, status := Synced, lastSyncedAt := Some(input.syncedAt), lastError := "");
        }
      }
    }
  }

  function TargetsOf(links: seq<Mapping>): (r: seq<nat>)
    ensures |r| == |links| && forall i :: 0 <= i < |r| ==> r[i] == links[i].target
  {
    seq(|links|, i requires 0 <= i < |links| => links[i].target)
  }

  /** The mappings are rows of the table, each target once. */
  ghost predicate Lists(links: seq<Mapping>, t: Links, cert: nat) {
    && (forall i :: 0 <= i < |links| ==> RowIs(links[i], t, cert))
    && (forall i, j :: 0 <= i < j < |links| ==> links[i].target != links[j].target)
  }

  ghost predicate RowIs(m: Mapping, t: Links, cert: nat) {
    && m.cert == cert && (cert, m.target) in t.rows && DatedLink(t.rows[(cert, m.target)])
    && m == MappingOf((cert, m.target), t.rows[(cert, m.target)])
  }

  lemma StillLists(links: seq<Mapping>, t: Links, t': Links, cert: nat)
    requires links != [] && Lists(links, t, cert) && t'.rows.Keys == t.rows.Keys
    requires forall p :: p in t.rows && p != (cert, links[0].target) ==> t'.rows[p] == t.rows[p]
    ensures Lists(links[1..], t', cert)
  {
    hide MappingOf;
    forall i | 0 <= i < |links[1..]|
      ensures RowIs(links[1..][i], t', cert)
    {
      assert links[1..][i] == links[i + 1] && RowIs(links[i + 1], t, cert);
    }
  }

  lemma NoTargets(w: World, c: Certificate, contents: Result<Issued>, env: SyncEnv)
    ensures SyncAll(w, c, [], contents, env) == (w, Nil)
  {
  }

  /** The definition, one step. */
  lemma OneMoreTarget(w: World, c: Certificate, ids: seq<nat>, i: nat, contents: Result<Issued>, env: SyncEnv)
    requires i < |ids|
    ensures var before := SyncAll(w, c, ids[..i], contents, env);
      SyncAll(w, c, ids[..i + 1], contents, env) ==
      if before.1.Error? then before else SyncOne(before.0, c, ids[i], contents, env.at(ids[i]))
  {
    hide SyncOne;
    assert ids[..i + 1][..i] == ids[..i];
  }

  /** After an error no further target is touched. */
  lemma {:induction false} StopsAt(
    w: World, c: Certificate, ids: seq<nat>, n: nat, contents: Result<Issued>, env: SyncEnv)
    requires n <= |ids| && SyncAll(w, c, ids[..n], contents, env).1.Error?
    ensures SyncAll(w, c, ids, contents, env) == SyncAll(w, c, ids[..n], contents, env)
  {
    hide SyncAll, SyncOne;
    if n < |ids| {
      var m := |ids| - 1;
      assert ids[..m][..n] == ids[..n] && ids[..m + 1] == ids;
      StopsAt(w, c, ids[..m], n, contents, env);
      OneMoreTarget(w, c, ids, m, contents, env);
    } else {
      assert ids[..n] == ids;
    }
  }
}
