/** What a finished sync of a certificate means, and why the theorems about links apply to it. */
module SyncFacts {
  import opened Wrappers
  import opened Text
  import opened TimeText
  import opened Domain
  import opened Tables
  import opened Pem
  import opened Links
  import opened KongSync
  import opened LinkRuns

  /** The targets are linked to the certificate, each listed once. */
  ghost predicate Linked(w: World, cert: nat, ids: seq<nat>) {
    && (forall i :: 0 <= i < |ids| ==> (cert, ids[i]) in w.links.rows)
    && (forall i, j :: 0 <= i < j < |ids| ==> ids[i] != ids[j])
  }

  function LinkAfter(w: World, c: Certificate, target: nat, contents: Result<Issued>, env: SyncEnv): Link
    requires (c.id, target) in w.links.rows
  {
    SyncedLink(w.links.rows[(c.id, target)], ReadError(contents), env.at(target).reply, env.at(target).syncedAt)
  }

  /** The requests of a sync: one for each target in order, or none when the files cannot be read. */
  function RequestsFor(w: World, c: Certificate, ids: seq<nat>, contents: Result<Issued>): seq<Request>
    requires forall i :: 0 <= i < |ids| ==> (c.id, ids[i]) in w.links.rows
  {
    if contents.Err? then []
    else seq(|ids|, i requires 0 <= i < |ids| => RequestFor(c, ids[i], w.links.rows[(c.id, ids[i])], contents.value))
  }

  /** The request for this link carries exactly these files and the certificate's SNIs and tags. */
  ghost predicate Carries(q: Request, c: Certificate, target: nat, link: Link, contents: Issued) {
    && q.target == target && q.cert == contents.chain.raw && q.key == contents.key.raw && q.snis == c.profile.snis
    && q.existing == link.kongCertificateId && (q.verb == Post <==> Blank(link.kongCertificateId))
    && q.tags == ["cert-lite", if exists sni :: sni in c.profile.snis && '*' in sni then "wildcard" else "non-wildcard"]
  }

  lemma RequestCarries(c: Certificate, target: nat, link: Link, contents: Issued)
    ensures Carries(RequestFor(c, target, link, contents), c, target, link, contents)
  {
    hide Blank;
  }

  /** One request for each target in order, when the files can be read, and what it carries. */
  lemma RequestsCarry(w: World, c: Certificate, ids: seq<nat>, contents: Issued)
    requires forall i :: 0 <= i < |ids| ==> (c.id, ids[i]) in w.links.rows
    ensures |RequestsFor(w, c, ids, Ok(contents))| == |ids|
    ensures forall i :: 0 <= i < |ids| ==>
      Carries(RequestsFor(w, c, ids, Ok(contents))[i], c, ids[i], w.links.rows[(c.id, ids[i])], contents)
  {
    hide Carries, RequestFor;
    forall i | 0 <= i < |ids|
      ensures Carries(RequestsFor(w, c, ids, Ok(contents))[i], c, ids[i], w.links.rows[(c.id, ids[i])], contents)
    {
      RequestCarries(c, ids[i], w.links.rows[(c.id, ids[i])], contents);
    }
  }

  function FinishedJob(w: World, c: Certificate, target: nat, contents: Result<Issued>, env: SyncEnv): Job
    requires (c.id, target) in w.links.rows
  {
    var ended := if LinkAfter(w, c, target, contents, env).status == Synced then Success else Failure;
    var started, finished := Format(env.at(target).startedAt), Format(env.at(target).finishedAt);
    Job(Some(c.id), Some(target), Sync, ended, started, Some(finished))
  }

  /** The old jobs are untouched, and each target has got one job, finished as its link says. */
  ghost predicate JobsAdded(w: World, w': World, c: Certificate, ids: seq<nat>, contents: Result<Issued>, env: SyncEnv)
    requires Linked(w, c.id, ids)
  {
    && w'.jobs.nextId == w.jobs.nextId + |ids|
    && (forall id :: id in w.jobs.rows && id < w.jobs.nextId ==>
      id in w'.jobs.rows && w'.jobs.rows[id] == w.jobs.rows[id])
    && (forall i :: 0 <= i < |ids| ==> JobIs(w'.jobs, w.jobs.nextId + i, FinishedJob(w, c, ids[i], contents, env)))
  }

  predicate JobIs(jobs: Jobs, id: nat, job: Job) {
    id in jobs.rows && jobs.rows[id] == job
  }

  /** Every link got exactly one sync, and no other link anything. */
  ghost predicate LinksSynced(
    w: World, w': World, c: Certificate, ids: seq<nat>, contents: Result<Issued>, env: SyncEnv)
    requires Linked(w, c.id, ids)
  {
    && w'.links.nextId == w.links.nextId && w'.links.rows.Keys == w.links.rows.Keys
    && (forall i :: 0 <= i < |ids| ==> w'.links.rows[(c.id, ids[i])] == LinkAfter(w, c, ids[i], contents, env))
    && (forall p :: p in w.links.rows && (p.0 == c.id ==> p.1 !in ids) ==> w'.links.rows[p] == w.links.rows[p])
  }

  ghost predicate Handled(w: World, w': World, c: Certificate, ids: seq<nat>, contents: Result<Issued>, env: SyncEnv)
    requires Linked(w, c.id, ids)
  {
    && w' == w.(jobs := w'.jobs, links := w'.links, requests := w'.requests)
    && LinksSynced(w, w', c, ids, contents, env)
    && w'.requests == w.requests + RequestsFor(w, c, ids, contents)
    && JobsAdded(w, w', c, ids, contents, env)
  }

  /** A sync that ends without an error has handled every target exactly once. */
  lemma {:induction false} FinishedSync(w: World, c: Certificate, ids: seq<nat>, contents: Result<Issued>, env: SyncEnv)
    requires Linked(w, c.id, ids) && SyncAll(w, c, ids, contents, env).1.Nil?
    ensures Handled(w, SyncAll(w, c, ids, contents, env).0, c, ids, contents, env)
  {
    hide SyncOne, Handled;
    if ids == [] {
      NothingHandled(w, c, contents, env);
    } else {
      var n := |ids| - 1;
      FinishedSync(w, c, ids[..n], contents, env);
      var w1 := SyncAll(w, c, ids[..n], contents, env).0;
      OneMore(w, w1, c, ids, contents, env);
    }
  }

  lemma NothingHandled(w: World, c: Certificate, contents: Result<Issued>, env: SyncEnv)
    ensures Handled(w, w, c, [], contents, env)
  {
  }

  lemma OneMore(w: World, w1: World, c: Certificate, ids: seq<nat>, contents: Result<Issued>, env: SyncEnv)
    requires ids != [] && Linked(w, c.id, ids) && Linked(w, c.id, ids[..|ids| - 1])
    requires Handled(w, w1, c, ids[..|ids| - 1], contents, env)
    requires SyncOne(w1, c, ids[|ids| - 1], contents, env.at(ids[|ids| - 1])).1.Nil?
    ensures Handled(w, SyncOne(w1, c, ids[|ids| - 1], contents, env.at(ids[|ids| - 1])).0, c, ids, contents, env)
  {
    hide SyncOne, JobsAdded, LinkAfter, FinishedJob, LinksSynced;
    var n := |ids| - 1;
    assert (c.id, ids[n]) in w1.links.rows && w1.links.rows[(c.id, ids[n])] == w.links.rows[(c.id, ids[n])] by {
      LastUntouched(w, w1, c, ids, contents, env);
    }
    var w2 := SyncOne(w1, c, ids[n], contents, env.at(ids[n])).0;
    OneFinished(w1, c, ids[n], contents, env);
    JobsGrow(w, w1, w2, c, ids, contents, env);
    LinksGrow(w, w1, w2, c, ids, contents, env);
    RequestsGrow(w, w1, c, ids, contents);
  }

  lemma LastUntouched(w: World, w1: World, c: Certificate, ids: seq<nat>, contents: Result<Issued>, env: SyncEnv)
    requires ids != [] && Linked(w, c.id, ids) && Linked(w, c.id, ids[..|ids| - 1])
    requires LinksSynced(w, w1, c, ids[..|ids| - 1], contents, env)
    ensures (c.id, ids[|ids| - 1]) in w1.links.rows
    ensures w1.links.rows[(c.id, ids[|ids| - 1])] == w.links.rows[(c.id, ids[|ids| - 1])]
  {
    hide LinkAfter;
    assert ids[|ids| - 1] !in ids[..|ids| - 1];
  }

  lemma RequestsGrow(w: World, w1: World, c: Certificate, ids: seq<nat>, contents: Result<Issued>)
    requires ids != [] && Linked(w, c.id, ids)
    requires (c.id, ids[|ids| - 1]) in w1.links.rows
    requires w1.links.rows[(c.id, ids[|ids| - 1])] == w.links.rows[(c.id, ids[|ids| - 1])]
    ensures RequestsFor(w, c, ids, contents) ==
      RequestsFor(w, c, ids[..|ids| - 1], contents) + RequestsFor(w1, c, [ids[|ids| - 1]], contents)
  {
    hide RequestFor;
  }

  lemma LinksGrow(w: World, w1: World, w2: World, c: Certificate, ids: seq<nat>, contents: Result<Issued>, env: SyncEnv)
    requires ids != [] && Linked(w, c.id, ids) && Linked(w, c.id, ids[..|ids| - 1])
    requires LinksSynced(w, w1, c, ids[..|ids| - 1], contents, env)
    requires SameBut(w1, w2, (c.id, ids[|ids| - 1]))
    requires (c.id, ids[|ids| - 1]) in w1.links.rows
    requires w1.links.rows[(c.id, ids[|ids| - 1])] == w.links.rows[(c.id, ids[|ids| - 1])]
    requires w2.links.rows[(c.id, ids[|ids| - 1])] == LinkAfter(w1, c, ids[|ids| - 1], contents, env)
    ensures LinksSynced(w, w2, c, ids, contents, env)
  {
    hide SyncedLink;
    var n := |ids| - 1;
    assert ids == ids[..n] + [ids[n]];
    forall i | 0 <= i < |ids|
      ensures w2.links.rows[(c.id, ids[i])] == LinkAfter(w, c, ids[i], contents, env)
    {
      if i < n {
        assert ids[..n][i] == ids[i];
      }
    }
  }

  lemma OneFinished(w: World, c: Certificate, target: nat, contents: Result<Issued>, env: SyncEnv)
    requires (c.id, target) in w.links.rows && SyncOne(w, c, target, contents, env.at(target)).1.Nil?
    ensures var w' := SyncOne(w, c, target, contents, env.at(target)).0;
      && SameBut(w, w', (c.id, target))
      && w'.links.rows[(c.id, target)] == LinkAfter(w, c, target, contents, env)
      && w'.requests == w.requests + RequestsFor(w, c, [target], contents)
      && w'.jobs == Jobs(w.jobs.rows[w.jobs.nextId := FinishedJob(w, c, target, contents, env)], w.jobs.nextId + 1)
  {
    hide SyncedLink, Format, RequestFor;
    if contents.Ok? {
      assert RequestsFor(w, c, [target], contents) ==
        [RequestFor(c, target, w.links.rows[(c.id, target)], contents.value)];
    }
  }

  lemma JobsGrow(w: World, w1: World, w2: World, c: Certificate, ids: seq<nat>, contents: Result<Issued>, env: SyncEnv)
    requires ids != [] && Linked(w, c.id, ids) && Linked(w, c.id, ids[..|ids| - 1])
    requires JobsAdded(w, w1, c, ids[..|ids| - 1], contents, env)
    requires (c.id, ids[|ids| - 1]) in w1.links.rows
    requires w1.links.rows[(c.id, ids[|ids| - 1])] == w.links.rows[(c.id, ids[|ids| - 1])]
    requires w2.jobs ==
      Jobs(w1.jobs.rows[w1.jobs.nextId := FinishedJob(w1, c, ids[|ids| - 1], contents, env)], w1.jobs.nextId + 1)
    ensures JobsAdded(w, w2, c, ids, contents, env)
  {
    hide SyncedLink, Format, SyncJob;
    var n := |ids| - 1;
    forall i | 0 <= i < |ids|
      ensures JobIs(w2.jobs, w.jobs.nextId + i, FinishedJob(w, c, ids[i], contents, env))
    {
      if i < n {
        assert JobIs(w1.jobs, w.jobs.nextId + i, FinishedJob(w, c, ids[..n][i], contents, env));
      }
    }
  }

  // ---------- every link is settled ----------

  /**
   * Either Kong was sent exactly the given files and SNIs in this sync and the link says synced, or the link
   * says failed with a reason.
   */
  ghost predicate Settled(w: World, w': World, c: Certificate, target: nat, contents: Result<Issued>)
    requires (c.id, target) in w.links.rows && (c.id, target) in w'.links.rows && |w.requests| <= |w'.requests|
  {
    var link' := w'.links.rows[(c.id, target)];
    if link'.status.Synced? then
      && contents.Ok? && link'.kongCertificateId != "" && link'.lastError == ""
      && exists q ::
        && q in w'.requests[|w.requests|..]
        && Carries(q, c, target, w.links.rows[(c.id, target)], contents.value)
    else link'.status.SyncFailed? && link'.lastError != ""
  }

  lemma ReadErrorsSpeak(files: map<string, Pem>, c: Certificate, env: SyncEnv)
    ensures Contents(files, c, env).Err? ==> Contents(files, c, env).error != ""
  {
    hide Blank;
  }

  lemma EveryLinkSettled(w: World, c: Certificate, ids: seq<nat>, contents: Result<Issued>, env: SyncEnv, i: nat)
    requires Linked(w, c.id, ids) && SyncAll(w, c, ids, contents, env).1.Nil? && i < |ids|
    requires contents.Err? ==> contents.error != ""
    ensures var w' := SyncAll(w, c, ids, contents, env).0;
      && (c.id, ids[i]) in w'.links.rows && |w.requests| <= |w'.requests|
      && Settled(w, w', c, ids[i], contents)
  {
    hide SyncedLink, SyncOne, RequestFor, SyncAll, JobsAdded, Carries;
    FinishedSync(w, c, ids, contents, env);
    var w' := SyncAll(w, c, ids, contents, env).0;
    var link, input := w.links.rows[(c.id, ids[i])], env.at(ids[i]);
    SyncedLinkFacts(link, ReadError(contents), input.reply, input.syncedAt);
    assert w'.requests[|w.requests|..] == RequestsFor(w, c, ids, contents);
    if contents.Ok? {
      assert RequestsFor(w, c, ids, contents)[i] == RequestFor(c, ids[i], link, contents.value);
      RequestCarries(c, ids[i], link, contents.value);
    } else {
      ReadErrorFails(link, contents.error, input.reply, input.syncedAt);
    }
  }

  lemma ReadErrorFails(link: Link, e: string, reply: Reply, now: int)
    ensures SyncedLink(link, Some(e), reply, now).status.SyncFailed?
  {
  }

  // ---------- the two sync calls ----------

  /** Links lead to known targets. */
  ghost predicate TargetsKnown(w: World) {
    forall pair :: pair in w.links.rows ==> pair.1 < w.targets.nextId
  }

  /**
   * The link says synced after Kong was sent the text of the files at the certificate's two paths, its SNIs and tags;
   * or it says failed with a reason.
   */
  ghost predicate SettledFromFiles(w: World, w': World, id: nat, target: nat)
    requires id in w.certificates.rows && (id, target) in w.links.rows
  {
    var row, link := w.certificates.rows[id], w.links.rows[(id, target)];
    && (id, target) in w'.links.rows && |w.requests| <= |w'.requests|
    && var link' := w'.links.rows[(id, target)];
    if link'.status == Synced then
      && link'.kongCertificateId != "" && link'.lastError == ""
      && row.certPath in w.files && row.keyPath in w.files
      && exists q ::
        && q in w'.requests[|w.requests|..] && q.target == target
        && q.cert == w.files[row.certPath].raw && q.key == w.files[row.keyPath].raw && q.snis == row.profile.snis
        && q.existing == link.kongCertificateId && (q.verb == Post <==> Blank(link.kongCertificateId))
        && q.tags ==
          ["cert-lite", if exists sni :: sni in row.profile.snis && '*' in sni then "wildcard" else "non-wildcard"]
    else link'.status == SyncFailed && link'.lastError != ""
  }

  lemma ContentsAreFiles(files: map<string, Pem>, c: Certificate, env: SyncEnv)
    ensures Contents(files, c, env).Ok? ==>
      && c.certPath in files && c.keyPath in files
      && Contents(files, c, env).value == Issued(files[c.certPath], files[c.keyPath])
  {
    hide Blank;
  }

  lemma ScanKeeps(id: nat, row: CertificateRow)
    ensures ScanCertificate(id, row).Ok? ==>
      var c := ScanCertificate(id, row).value;
      c.id == id && c.profile == row.profile && c.certPath == row.certPath && c.keyPath == row.keyPath
  {
    hide Parse;
  }

  lemma SettledMeansFiles(w: World, w': World, c: Certificate, target: nat, env: SyncEnv)
    requires c.id in w.certificates.rows && ScanCertificate(c.id, w.certificates.rows[c.id]) == Ok(c)
    requires (c.id, target) in w.links.rows && (c.id, target) in w'.links.rows && |w.requests| <= |w'.requests|
    requires Settled(w, w', c, target, Contents(w.files, c, env))
    ensures SettledFromFiles(w, w', c.id, target)
  {
    hide Contents, ScanCertificate, Blank;
    ScanKeeps(c.id, w.certificates.rows[c.id]);
    ContentsAreFiles(w.files, c, env);
  }

  /** After a sync of a certificate that returns nil every link of it is settled, and nothing else has changed. */
  lemma SyncSettlesAll(w: World, id: nat, env: SyncEnv)
    requires TargetsKnown(w) && SyncRun(w, id, env).1.Nil?
    ensures id in w.certificates.rows
    ensures var w' := SyncRun(w, id, env).0;
      && w' == w.(jobs := w'.jobs, links := w'.links, requests := w'.requests)
      && w'.links.rows.Keys == w.links.rows.Keys
      && (forall pair :: pair in w.links.rows && pair.0 != id ==> w'.links.rows[pair] == w.links.rows[pair])
      && forall target :: (id, target) in w.links.rows ==> SettledFromFiles(w, w', id, target)
  {
    hide SyncAll, Contents, ScanCertificate, SettledFromFiles, Settled, JobsAdded, RequestsFor, LinkAfter;
    var (c, ids) := SyncInputs(w, id, env).value;
    ScanKeeps(id, w.certificates.rows[id]);
    var contents := Contents(w.files, c, env);
    FinishedSync(w, c, ids, contents, env);
    ReadErrorsSpeak(w.files, c, env);
    forall target | (id, target) in w.links.rows
      ensures SettledFromFiles(w, SyncRun(w, id, env).0, id, target)
    {
      var i :| 0 <= i < |ids| && ids[i] == target;
      EveryLinkSettled(w, c, ids, contents, env, i);
      SettledMeansFiles(w, SyncRun(w, id, env).0, c, target, env);
    }
  }

  /**
   * After a sync of one target that returns nil, that link was linked and is settled, one sync job of the certificate
   * and the target has been added, finished as the link says, and nothing else has changed.
   */
  lemma SyncSettlesOne(w: World, id: nat, target: nat, env: SyncEnv)
    requires SyncTargetRun(w, id, target, env).1.Nil?
    ensures id in w.certificates.rows && (id, target) in w.links.rows
    ensures var w' := SyncTargetRun(w, id, target, env).0;
      && w' == w.(jobs := w'.jobs, links := w'.links, requests := w'.requests)
      && w'.links.rows.Keys == w.links.rows.Keys
      && (forall pair :: pair in w.links.rows && pair != (id, target) ==> w'.links.rows[pair] == w.links.rows[pair])
      && SettledFromFiles(w, w', id, target)
      && w.requests <= w'.requests && |w'.requests| <= |w.requests| + 1
      && w'.jobs.nextId == w.jobs.nextId + 1
      && w'.jobs.rows == w.jobs.rows[w.jobs.nextId :=
        Job(Some(id), Some(target), Sync, if w'.links.rows[(id, target)].status == Synced then Success else Failure,
            Format(env.at(target).startedAt), Some(Format(env.at(target).finishedAt)))]
  {
    hide Contents, ScanCertificate, SettledFromFiles, Settled, LinkAfter, Format, SyncOne, SyncAll;
    var (c, ids) := SyncInputs(w, id, env).value;
    ScanKeeps(id, w.certificates.rows[id]);
    var contents := Contents(w.files, c, env);
    NoTargets(w, c, contents, env);
    assert [target][..0] == [] && [target][..1] == [target];
    OneMoreTarget(w, c, [target], 0, contents, env);
    OneFinished(w, c, target, contents, env);
    ReadErrorsSpeak(w.files, c, env);
    EveryLinkSettled(w, c, [target], contents, env, 0);
    SettledMeansFiles(w, SyncTargetRun(w, id, target, env).0, c, target, env);
  }

  /** What a sync of one target leaves when a statement fails: the job running, and what came before. */
  lemma FaultsLeave(w: World, c: Certificate, target: nat, contents: Result<Issued>, input: SyncInput)
    requires (c.id, target) in w.links.rows && !input.fault.AtGet?
    ensures var (w', r) := SyncTarget(w, c, target, contents, input);
      var running := Job(Some(c.id), Some(target), Sync, Running, Format(input.startedAt), None);
      && (r.Nil? <==> input.fault.NoFault?)
      && (input.fault.AtCreate? ==> w' == w)
      && (input.fault.AtUpsert? || input.fault.AtFetch? || input.fault.AtUpdate? ==>
        w'.jobs.nextId == w.jobs.nextId + 1 && w'.jobs.rows == w.jobs.rows[w.jobs.nextId := running])
      && (input.fault.AtUpsert? ==> w'.links == w.links)
      && (input.fault.AtFetch? || input.fault.AtUpdate? ==>
        w'.links.rows[(c.id, target)]
        == SyncedLink(w.links.rows[(c.id, target)], ReadError(contents), input.reply, input.syncedAt))
      && (!input.fault.AtCreate? ==> |w'.requests| == |w.requests| + if contents.Ok? then 1 else 0)
  {
    hide SyncedLink, RequestFor, Format;
  }

  /** A listed target that is gone is skipped without an error. */
  lemma GoneTargetIsSkipped(w: World, c: Certificate, target: nat, contents: Result<Issued>, input: SyncInput)
    requires (c.id, target) !in w.links.rows && input.fault != AtGet
    ensures SyncOne(w, c, target, contents, input) == (w, Nil)
  {
  }

  /** The sync of a target fails exactly when one of its statements does. */
  lemma OneEnds(w: World, c: Certificate, target: nat, contents: Result<Issued>, input: SyncInput)
    requires (c.id, target) in w.links.rows
    ensures var (w', r) := SyncOne(w, c, target, contents, input);
      && (r.Nil? <==> input.fault == NoFault)
      && w.requests <= w'.requests && |w'.requests| <= |w.requests| + 1
      && (|w'.requests| > |w.requests| ==> w'.requests[|w.requests|].target == target)
  {
    hide SyncedLink, Format;
  }

  /** The first n targets work. */
  predicate NoFaultsBefore(ids: seq<nat>, env: SyncEnv, n: int)
    requires 0 <= n <= |ids|
  {
    forall i :: 0 <= i < n ==> env.at(ids[i]).fault == NoFault
  }

  /** Nothing after target n has been dealt with: no other link was written, and no later target asked about. */
  ghost predicate DealtWith(w: World, w': World, c: Certificate, ids: seq<nat>, n: nat)
    requires n <= |ids|
  {
    var done := ids[..if n < |ids| then n + 1 else n];
    && w'.links.rows.Keys == w.links.rows.Keys
    && (forall p :: p in w.links.rows && (p.0 == c.id ==> p.1 !in done) ==> w'.links.rows[p] == w.links.rows[p])
    && w.requests <= w'.requests && |w'.requests| <= |w.requests| + n + 1
    && (n < |ids| && |w'.requests| == |w.requests| + n + 1 ==> w'.requests[|w.requests| + n].target == ids[n])
  }

  /** The first n targets are handled; then a statement of target n fails and the sync with it, or the list ends. */
  ghost predicate EndsAt(w: World, c: Certificate, ids: seq<nat>, contents: Result<Issued>, env: SyncEnv, n: nat)
    requires n <= |ids| && Linked(w, c.id, ids)
  {
    && NoFaultsBefore(ids, env, n) && (n < |ids| ==> env.at(ids[n]).fault != NoFault)
    && Handled(w, SyncAll(w, c, ids[..n], contents, env).0, c, ids[..n], contents, env)
    && DealtWith(w, SyncAll(w, c, ids, contents, env).0, c, ids, n)
    && (SyncAll(w, c, ids, contents, env).1.Nil? <==> n == |ids|)
  }

  /**
   * A sync ends without an error exactly when no statement of any target fails. Otherwise it stops at the first target
   * with a failing statement: the earlier targets are handled, and the later ones neither written nor asked about.
   */
  lemma {:induction false} StopsAtFirstError(
    w: World, c: Certificate, ids: seq<nat>, contents: Result<Issued>, env: SyncEnv)
    returns (n: nat)
    requires Linked(w, c.id, ids)
    ensures n <= |ids| && EndsAt(w, c, ids, contents, env, n)
  {
    hide EndsAt;
    if ids == [] {
      n := 0;
      EndsAtOnce(w, c, contents, env);
    } else {
      var m := |ids| - 1;
      n := StopsAtFirstError(w, c, ids[..m], contents, env);
      if n < m {
        EndsEarlier(w, c, ids, contents, env, n);
      } else {
        EndsLast(w, c, ids, contents, env);
        n := if env.at(ids[m]).fault == NoFault then |ids| else m;
      }
    }
  }

  lemma EndsAtOnce(w: World, c: Certificate, contents: Result<Issued>, env: SyncEnv)
    ensures EndsAt(w, c, [], contents, env, 0)
  {
    hide Handled;
    NothingHandled(w, c, contents, env);
  }

  lemma EndsEarlier(w: World, c: Certificate, ids: seq<nat>, contents: Result<Issued>, env: SyncEnv, n: nat)
    requires ids != [] && n < |ids| - 1 && Linked(w, c.id, ids) && Linked(w, c.id, ids[..|ids| - 1])
    requires EndsAt(w, c, ids[..|ids| - 1], contents, env, n)
    ensures EndsAt(w, c, ids, contents, env, n)
  {
    hide SyncOne, Handled, DealtWith;
    var m := |ids| - 1;
    assert ids[..m][..n] == ids[..n];
    assert forall i :: 0 <= i <= n ==> ids[..m][i] == ids[i];
    StopsEarlier(w, SyncAll(w, c, ids[..m], contents, env).0, c, ids, n);
  }

  lemma EndsLast(w: World, c: Certificate, ids: seq<nat>, contents: Result<Issued>, env: SyncEnv)
    requires ids != [] && Linked(w, c.id, ids) && Linked(w, c.id, ids[..|ids| - 1])
    requires EndsAt(w, c, ids[..|ids| - 1], contents, env, |ids| - 1)
    ensures EndsAt(w, c, ids, contents, env, if env.at(ids[|ids| - 1]).fault == NoFault then |ids| else |ids| - 1)
  {
    hide SyncOne, Handled, DealtWith;
    var m := |ids| - 1;
    assert ids[..m][..m] == ids[..m] && ids[..|ids|] == ids;
    assert forall i :: 0 <= i < m ==> ids[..m][i] == ids[i];
    LastTarget(w, SyncAll(w, c, ids[..m], contents, env).0, c, ids, contents, env);
    if env.at(ids[m]).fault == NoFault {
      FinishedSync(w, c, ids, contents, env);
    }
  }

  lemma StopsEarlier(w: World, w': World, c: Certificate, ids: seq<nat>, n: nat)
    requires ids != [] && n < |ids| - 1 && DealtWith(w, w', c, ids[..|ids| - 1], n)
    ensures DealtWith(w, w', c, ids, n)
  {
    assert ids[..|ids| - 1][..n + 1] == ids[..n + 1];
  }

  lemma LastTarget(w: World, w1: World, c: Certificate, ids: seq<nat>, contents: Result<Issued>, env: SyncEnv)
    requires ids != [] && Linked(w, c.id, ids) && Linked(w, c.id, ids[..|ids| - 1])
    requires Handled(w, w1, c, ids[..|ids| - 1], contents, env)
    ensures var (w', r) := SyncOne(w1, c, ids[|ids| - 1], contents, env.at(ids[|ids| - 1]));
      && (r.Nil? <==> env.at(ids[|ids| - 1]).fault == NoFault)
      && DealtWith(w, w', c, ids, |ids| - 1) && DealtWith(w, w', c, ids, |ids|)
  {
    hide SyncOne, DealtWith, JobsAdded, LinkAfter, RequestsFor;
    var m := |ids| - 1;
    RequestsCount(w, w1, c, ids[..m], contents, env);
    OneEnds(w1, c, ids[m], contents, env.at(ids[m]));
    LastDealtWith(w, w1, SyncOne(w1, c, ids[m], contents, env.at(ids[m])).0, c, ids);
  }

  lemma LastDealtWith(w: World, w1: World, w': World, c: Certificate, ids: seq<nat>)
    requires ids != [] && w.requests <= w1.requests && |w1.requests| <= |w.requests| + |ids| - 1
    requires w1.links.rows.Keys == w.links.rows.Keys && SameBut(w1, w', (c.id, ids[|ids| - 1]))
    requires forall p :: p in w.links.rows && (p.0 == c.id ==> p.1 !in ids[..|ids| - 1]) ==>
      w1.links.rows[p] == w.links.rows[p]
    requires w1.requests <= w'.requests && |w'.requests| <= |w1.requests| + 1
    requires |w'.requests| > |w1.requests| ==> w'.requests[|w1.requests|].target == ids[|ids| - 1]
    ensures DealtWith(w, w', c, ids, |ids| - 1) && DealtWith(w, w', c, ids, |ids|)
  {
    var m := |ids| - 1;
    assert ids[..m + 1] == ids == ids[..m] + [ids[m]];
  }

  lemma RequestsCount(w: World, w': World, c: Certificate, ids: seq<nat>, contents: Result<Issued>, env: SyncEnv)
    requires Linked(w, c.id, ids) && Handled(w, w', c, ids, contents, env)
    ensures w.requests <= w'.requests && |w'.requests| <= |w.requests| + |ids|
    ensures w'.links.rows.Keys == w.links.rows.Keys
  {
    hide RequestFor, JobsAdded, LinkAfter;
  }

  // ---------- a sync is a run of link operations ----------

  /** The step one target contributes, if its sync gets as far as asking Kong. */
  function OpsOfOne(w: World, c: Certificate, target: nat, contents: Result<Issued>, input: SyncInput): seq<Op> {
    if input.fault.AtGet? || input.fault.AtCreate? || (c.id, target) !in w.links.rows then []
    else [SyncLink(c.id, target, ReadError(contents), input.reply, input.syncedAt, !input.fault.AtUpsert?)]
  }

  function OpsOfAll(w: World, c: Certificate, ids: seq<nat>, contents: Result<Issued>, env: SyncEnv): seq<Op> {
    if ids == [] then []
    else
      var n := |ids| - 1;
      var (w', r) := SyncAll(w, c, ids[..n], contents, env);
      OpsOfAll(w, c, ids[..n], contents, env)
      + if r.Error? then [] else OpsOfOne(w', c, ids[n], contents, env.at(ids[n]))
  }

  /** The link rows for which Kong answered a create with success, in the order of the requests. */
  function CreatedRows(w: World, cert: nat, sent: seq<Request>, env: SyncEnv): seq<nat> {
    if sent == [] then []
    else
      var last := sent[|sent| - 1];
      CreatedRows(w, cert, sent[..|sent| - 1], env)
      + if last.verb.Post? && Accepted(env.at(last.target).reply) && (cert, last.target) in w.links.rows
        then [w.links.rows[(cert, last.target)].id] else []
  }

  /** The same pairs are linked by the same rows. */
  ghost predicate SameRows(w: World, w': World) {
    && w'.links.rows.Keys == w.links.rows.Keys
    && forall pair :: pair in w.links.rows ==> w'.links.rows[pair].id == w.links.rows[pair].id
  }

  lemma {:induction false} CreatedRowsOfSame(w: World, w': World, cert: nat, sent: seq<Request>, env: SyncEnv)
    requires SameRows(w, w')
    ensures CreatedRows(w', cert, sent, env) == CreatedRows(w, cert, sent, env)
  {
    if sent != [] {
      CreatedRowsOfSame(w, w', cert, sent[..|sent| - 1], env);
    }
  }

  lemma {:induction false} CreatedRowsAppend(
    w: World, cert: nat, first: seq<Request>, second: seq<Request>, env: SyncEnv)
    ensures CreatedRows(w, cert, first + second, env) ==
      CreatedRows(w, cert, first, env) + CreatedRows(w, cert, second, env)
  {
    if second == [] {
      assert first + second == first;
    } else {
      var n := |second| - 1;
      assert (first + second)[..|first| + n] == first + second[..n];
      CreatedRowsAppend(w, cert, first, second[..n], env);
    }
  }

  /** What a sync of one link sends, and the rows it keeps. */
  lemma OneSends(w: World, c: Certificate, target: nat, contents: Result<Issued>, env: SyncEnv)
    ensures var w' := SyncOne(w, c, target, contents, env.at(target)).0;
      SameRows(w, w') && w.requests <= w'.requests
  {
    hide Format, RequestFor, SyncedLink;
    if (c.id, target) in w.links.rows {
      var link := w.links.rows[(c.id, target)];
      SyncedLinkFacts(link, ReadError(contents), env.at(target).reply, env.at(target).syncedAt);
    }
  }

  lemma {:induction false} AllSend(w: World, c: Certificate, ids: seq<nat>, contents: Result<Issued>, env: SyncEnv)
    ensures var w' := SyncAll(w, c, ids, contents, env).0;
      SameRows(w, w') && w.requests <= w'.requests
  {
    hide SyncOne;
    if ids != [] {
      AllSend(w, c, ids[..|ids| - 1], contents, env);
      OneSends(SyncAll(w, c, ids[..|ids| - 1], contents, env).0, c, ids[|ids| - 1], contents, env);
    }
  }

  /** The requests from the n-th on. */
  function Since(w: World, n: nat): seq<Request> {
    if n <= |w.requests| then w.requests[n..] else []
  }

  lemma CreatedRowsJoin(w: World, w1: World, w2: World, cert: nat, env: SyncEnv)
    requires SameRows(w, w1) && w.requests <= w1.requests <= w2.requests
    ensures CreatedRows(w, cert, Since(w2, |w.requests|), env) ==
      CreatedRows(w, cert, Since(w1, |w.requests|), env) + CreatedRows(w1, cert, Since(w2, |w1.requests|), env)
  {
    hide CreatedRows, SameRows;
    CreatedRowsOfSame(w, w1, cert, Since(w2, |w1.requests|), env);
    CreatedRowsAppend(w, cert, Since(w1, |w.requests|), Since(w2, |w1.requests|), env);
    assert Since(w2, |w.requests|) == Since(w1, |w.requests|) + Since(w2, |w1.requests|);
  }

  lemma NothingCreated(w: World, cert: nat, env: SyncEnv)
    ensures CreatedRows(w, cert, [], env) == []
    ensures CreatedRows(w, cert, Since(w, |w.requests|), env) == []
  {
  }

  /**
   * After any history of links, the sync of one link does to the links what its step does in the run, and the
   * creates the run counts are the POST requests sent that Kong answered with success.
   */
  lemma OneFollowsOps(w: World, c: Certificate, target: nat, contents: Result<Issued>, env: SyncEnv, history: seq<Op>)
    requires Run(history).links == w.links
    ensures var w' := SyncOne(w, c, target, contents, env.at(target)).0;
      var s' := Run(history + OpsOfOne(w, c, target, contents, env.at(target)));
      && s'.links == w'.links
      && s'.creates == Run(history).creates + CreatedRows(w, c.id, Since(w', |w.requests|), env)
  {
    hide SyncedLink, Format, MethodFor, CreatedRows;
    var input := env.at(target);
    var ops := OpsOfOne(w, c, target, contents, input);
    NothingCreated(w, c.id, env);
    if ops == [] {
      assert history + ops == history;
    } else {
      var link := w.links.rows[(c.id, target)];
      assert (history + ops)[..|history|] == history;
      if input.fault.AtUpsert? {
        assert Apply(Run(history), ops[0]).links.rows == w.links.rows;
      }
      if contents.Ok? {
        assert Since(SyncOne(w, c, target, contents, input).0, |w.requests|) ==
          [RequestFor(c, target, link, contents.value)];
        CreatedByOne(w, c, target, contents.value, env);
      } else {
        assert Since(SyncOne(w, c, target, contents, input).0, |w.requests|) == [];
      }
    }
  }

  lemma CreatedByOne(w: World, c: Certificate, target: nat, contents: Issued, env: SyncEnv)
    requires (c.id, target) in w.links.rows
    ensures var link := w.links.rows[(c.id, target)];
      CreatedRows(w, c.id, [RequestFor(c, target, link, contents)], env) ==
      if MethodFor(link.kongCertificateId).Post? && Accepted(env.at(target).reply) then [link.id] else []
  {
    hide MethodFor, Tags;
    assert CreatedRows(w, c.id, [RequestFor(c, target, w.links.rows[(c.id, target)], contents)][..0], env) == [];
  }

  /** So does a whole sync, failed or not. */
  lemma {:induction false} SyncFollowsOps(
    w: World, c: Certificate, ids: seq<nat>, contents: Result<Issued>, env: SyncEnv, history: seq<Op>)
    requires Run(history).links == w.links
    ensures var w' := SyncAll(w, c, ids, contents, env).0;
      var s' := Run(history + OpsOfAll(w, c, ids, contents, env));
      && s'.links == w'.links
      && s'.creates == Run(history).creates + CreatedRows(w, c.id, Since(w', |w.requests|), env)
  {
    hide SyncOne, OpsOfOne, Run, CreatedRows, Since, SameRows;
    if ids == [] {
      assert history + [] == history;
      NothingCreated(w, c.id, env);
    } else {
      var n := |ids| - 1;
      var ops := OpsOfAll(w, c, ids[..n], contents, env);
      SyncFollowsOps(w, c, ids[..n], contents, env, history);
      var (w1, r) := SyncAll(w, c, ids[..n], contents, env);
      if r.Nil? {
        var last := OpsOfOne(w1, c, ids[n], contents, env.at(ids[n]));
        var w2 := SyncOne(w1, c, ids[n], contents, env.at(ids[n])).0;
        OneFollowsOps(w1, c, ids[n], contents, env, history + ops);
        assert history + (ops + last) == history + ops + last;
        AllSend(w, c, ids[..n], contents, env);
        OneSends(w1, c, ids[n], contents, env);
        CreatedRowsJoin(w, w1, w2, c.id, env);
      } else {
        assert ops + [] == ops;
      }
    }
  }
}
