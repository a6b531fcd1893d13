/**
 * Certificate rows and certificate files. In every run the rows keep one of three shapes; in runs where calls
 * on one certificate do not overlap and no write to the certificates table fails, an active row and its two
 * files come from the same ACME result.
 */
module IssuedFiles {
  import opened Wrappers
  import opened TimeText
  import opened Domain
  import opened Notification
  import opened Tables
  import opened Pem
  import opened AcmeMachine

  // ---------- the shape of certificate rows, in every run ----------

  predicate Shaped(row: CertificateRow) {
    && (row.status.Pending? || row.status.Active? || row.status.Failed?)
    && (row.certPath == "" <==> row.keyPath == "")
    && (row.certPath == "" <==> row.expiresAt.None?)
    && (row.status.Active? ==> row.certPath != "")
  }

  ghost predicate AllShaped(s: State) {
    forall id :: id in s.certificates.rows ==> id < s.certificates.nextId && Shaped(s.certificates.rows[id])
  }

  /** The statement updates the certificate's row as MarkIssued or UpdateStatus(failed) do, or leaves the table. */
  lemma CertificateEffects(s: State, k: nat, input: Input)
    requires k in s.calls && !s.calls[k].pc.Returned?
    ensures var c, t := s.calls[k], Advance(s, k, input).certificates;
      || t == s.certificates
      || (c.pc.Failing? && !input.fault && t == UpdateStatus(s.certificates, c.cert, Failed))
      || (c.pc.KeyWritten? && !MarkFails(s, c, input) && t == Marked(s, c).certificates)
  {
    hide Guarded, NewJob, Wrote, Writable, Marked, MarkFails;
  }

  lemma AdvanceShapes(s: State, k: nat, input: Input)
    requires AllShaped(s) && k in s.calls && !s.calls[k].pc.Returned?
    ensures AllShaped(Advance(s, k, input))
  {
    hide Advance, Format, ChainPath, KeyPath;
    CertificateEffects(s, k, input);
    PathsNotBlank(s.certDir, s.calls[k].cert);
  }

  lemma StepShapes(s: State, e: Event)
    requires AllShaped(s) && Enabled(s, e)
    ensures AllShaped(Next(s, e))
  {
    hide Advance;
    if e.Step? {
      AdvanceShapes(s, e.call, e.input);
    }
  }

  /** Every run leaves every row pending, active or failed, with paths and expiry all set or all unset. */
  lemma {:induction false} RunShapes(states: seq<State>, events: seq<Event>, i: nat)
    requires IsRun(states, events) && i < |states|
    ensures AllShaped(states[i])
  {
    hide Enabled, Next;
    if i > 0 {
      RunShapes(states, events, i - 1);
      StepShapes(states[i - 1], events[i - 1]);
    }
  }

  // ---------- a failed certificate is left alone ----------

  /** The scheduler would renew the row if it read it at `now`. */
  predicate Picked(s: State, id: nat, now: int) {
    && id in s.certificates.rows
    && ScanCertificate(id, s.certificates.rows[id]).Ok?
    && ShouldAutoRenew(ScanCertificate(id, s.certificates.rows[id]).value, now)
  }

  predicate MarksIssued(s: State, e: Event, id: nat) {
    && e.Step? && e.call in s.calls && s.calls[e.call].pc.KeyWritten? && s.calls[e.call].cert == id
    && !MarkFails(s, s.calls[e.call], e.input)
  }

  /** The certificate was created, and its row is gone or says failed. */
  predicate HasFailed(s: State, id: nat) {
    id < s.certificates.nextId && (id in s.certificates.rows ==> s.certificates.rows[id].status.Failed?)
  }

  lemma FailedStays(s: State, e: Event, id: nat)
    requires HasFailed(s, id) && Enabled(s, e) && !MarksIssued(s, e, id)
    ensures HasFailed(Next(s, e), id)
  {
    hide Advance, MarkFails, Format;
    if e.Step? {
      CertificateEffects(s, e.call, e.input);
    }
  }

  /** Once failed, a certificate is not picked again until some call marks it issued. */
  lemma {:induction false} FailedIsNotPicked(states: seq<State>, events: seq<Event>, id: nat, i: nat, j: nat, now: int)
    requires IsRun(states, events) && i <= j < |states|
    requires id in states[i].certificates.rows && states[i].certificates.rows[id].status.Failed?
    requires forall n :: i <= n < j ==> !MarksIssued(states[n], events[n], id)
    ensures !Picked(states[j], id, now)
  {
    hide Enabled, Next, MarksIssued;
    RunShapes(states, events, i);
    FailedUntil(states, events, id, i, j);
    hide ScanCertificate;
    ScannedStatus(id, states[j].certificates.rows);
  }

  lemma ScannedStatus(id: nat, rows: map<nat, CertificateRow>)
    ensures id in rows && ScanCertificate(id, rows[id]).Ok? ==>
      ScanCertificate(id, rows[id]).value.status == rows[id].status
  {
  }

  lemma {:induction false} FailedUntil(states: seq<State>, events: seq<Event>, id: nat, i: nat, j: nat)
    requires IsRun(states, events) && i <= j < |states| && HasFailed(states[i], id)
    requires forall n :: i <= n < j ==> !MarksIssued(states[n], events[n], id)
    ensures HasFailed(states[j], id)
  {
    hide Enabled, Next, MarksIssued, HasFailed;
    if i < j {
      FailedUntil(states, events, id, i, j - 1);
      FailedStays(states[j - 1], events[j - 1], id);
    }
  }

  // ---------- rows and files agree ----------

  predicate InFlight(c: Call, id: nat) {
    IsAcme(c.kind) && c.cert == id && !c.pc.Returned?
  }

  /** The call has begun to replace the files of its certificate, or is about to record a failure. */
  predicate Writing(c: Call, id: nat) {
    IsAcme(c.kind) && c.cert == id && (c.pc.ChainWritten? || c.pc.KeyWritten? || c.pc.Failing?)
  }

  ghost predicate BeingWritten(s: State, id: nat) {
    exists k :: k in s.calls && Writing(s.calls[k], id)
  }

  predicate FilesHold(s: State, id: nat, issued: Issued) {
    && ChainPath(s.certDir, id) in s.files && s.files[ChainPath(s.certDir, id)] == issued.chain
    && KeyPath(s.certDir, id) in s.files && s.files[KeyPath(s.certDir, id)] == issued.key
  }

  /** Row and files are those of one ACME result, the last one marked issued. */
  predicate Agrees(s: State, id: nat)
    requires id in s.certificates.rows
  {
    var row := s.certificates.rows[id];
    && id in s.history.issued
    && var issued := s.history.issued[id];
    && row.certPath == ChainPath(s.certDir, id) && row.keyPath == KeyPath(s.certDir, id)
    && FilesHold(s, id, issued)
    && Expiry(issued.chain.blocks).Some? && row.expiresAt == Some(Format(Expiry(issued.chain.blocks).value))
  }

  /** What a call that is replacing files has written so far. */
  predicate WritesOwn(s: State, c: Call) {
    IsAcme(c.kind) ==>
      && (c.pc.ChainWritten? ==>
        ChainPath(s.certDir, c.cert) in s.files && s.files[ChainPath(s.certDir, c.cert)] == c.issued.chain)
      && (c.pc.KeyWritten? ==> FilesHold(s, c.cert, c.issued) && Expiry(c.issued.chain.blocks).Some?)
      && (!c.pc.Begun? && !c.pc.Returned? ==> c.cert < s.certificates.nextId)
  }

  /** Only issue and renew calls reach the file and certificate statements. */
  predicate KindOk(c: Call) {
    c.pc.Obtained? || c.pc.ChainWritten? || c.pc.KeyWritten? || c.pc.Failing? ==> IsAcme(c.kind)
  }

  ghost predicate Filed(s: State) {
    && (forall id :: id in s.certificates.rows ==> id < s.certificates.nextId)
    && (forall k :: k in s.calls ==> KindOk(s.calls[k]) && WritesOwn(s, s.calls[k]))
    && (forall k, m, id :: k in s.calls && m in s.calls && InFlight(s.calls[k], id) && InFlight(s.calls[m], id) ==>
      k == m)
    && (forall id :: id in s.certificates.rows && s.certificates.rows[id].status.Active? && !BeingWritten(s, id) ==>
      Agrees(s, id))
  }

  /** Calls on one certificate do not overlap, and writes to the certificates table do not fail. */
  predicate Calm(s: State, e: Event) {
    && (e.Begin? && IsAcme(e.kind) ==> forall k :: k in s.calls ==> !InFlight(s.calls[k], e.cert))
    && (e.Step? && e.call in s.calls && (s.calls[e.call].pc.KeyWritten? || s.calls[e.call].pc.Failing?) ==>
      !e.input.fault)
  }

  // ---------- one step of a call ----------

  /** A statement leaves the files of every other certificate alone. */
  ghost predicate OtherFilesKept(s: State, s': State, cert: nat) {
    forall id :: id != cert ==>
      SameFile(s, s', ChainPath(s.certDir, id)) && SameFile(s, s', KeyPath(s.certDir, id))
  }

  predicate SameFile(s: State, s': State, path: string) {
    (path in s.files <==> path in s'.files) && (path in s.files ==> s'.files[path] == s.files[path])
  }

  /** Writing the chain or the key touches one path, and that is a path of the call's own certificate. */
  lemma WriteKeepsOthers(s: State, s': State, cert: nat, content: Pem, input: Input)
    requires s'.files == Wrote(s.files, ChainPath(s.certDir, cert), content, input)
      || s'.files == Wrote(s.files, KeyPath(s.certDir, cert), content, input)
    ensures OtherFilesKept(s, s', cert)
  {
    hide ChainPath, KeyPath;
    forall id | id != cert
      ensures SameFile(s, s', ChainPath(s.certDir, id)) && SameFile(s, s', KeyPath(s.certDir, id))
    {
      PathsDistinct(s.certDir, id, cert);
      PathsDistinct(s.certDir, cert, id);
    }
  }

  lemma ChainWriteEffects(s: State, k: nat, input: Input)
    requires k in s.calls && s.calls[k].pc.Obtained?
    ensures OtherFilesKept(s, Advance(s, k, input), s.calls[k].cert)
  {
    hide Wrote, ChainPath, KeyPath, Writable, OtherFilesKept;
    SameFilesKept(s, Advance(s, k, input), s.calls[k].cert);
    if Writable(s.certDir, s.calls[k].issued) {
      WriteKeepsOthers(s, Advance(s, k, input), s.calls[k].cert, s.calls[k].issued.chain, input);
    }
  }

  lemma KeyWriteEffects(s: State, k: nat, input: Input)
    requires k in s.calls && s.calls[k].pc.ChainWritten?
    ensures OtherFilesKept(s, Advance(s, k, input), s.calls[k].cert)
  {
    hide Wrote, ChainPath, KeyPath, AfterKey, OtherFilesKept;
    WriteKeepsOthers(s, Advance(s, k, input), s.calls[k].cert, s.calls[k].issued.key, input);
  }

  lemma SameFilesKept(s: State, s': State, cert: nat)
    ensures s'.files == s.files ==> OtherFilesKept(s, s', cert)
  {
    hide ChainPath, KeyPath;
  }

  lemma OtherStatementsWriteNothing(s: State, k: nat, input: Input)
    requires k in s.calls && !s.calls[k].pc.Returned? && !s.calls[k].pc.Obtained? && !s.calls[k].pc.ChainWritten?
    ensures Advance(s, k, input).files == s.files
  {
    hide Guarded, NewJob, Wrote, Writable, AfterKey, Answered, Marked, MarkFails, Format, FinishJob, UpdateStatus;
    if s.calls[k].pc.KeyWritten? && !MarkFails(s, s.calls[k], input) {
      MarkKeepsFiles(s, s.calls[k], input);
    }
  }

  lemma FileEffects(s: State, k: nat, input: Input)
    requires k in s.calls && !s.calls[k].pc.Returned?
    ensures OtherFilesKept(s, Advance(s, k, input), s.calls[k].cert)
    ensures !s.calls[k].pc.Obtained? && !s.calls[k].pc.ChainWritten? ==> Advance(s, k, input).files == s.files
  {
    hide Advance, OtherFilesKept;
    if s.calls[k].pc.Obtained? {
      ChainWriteEffects(s, k, input);
    } else if s.calls[k].pc.ChainWritten? {
      KeyWriteEffects(s, k, input);
    } else {
      OtherStatementsWriteNothing(s, k, input);
      SameFilesKept(s, Advance(s, k, input), s.calls[k].cert);
    }
  }

  lemma MarkKeepsFiles(s: State, c: Call, input: Input)
    requires !MarkFails(s, c, input)
    ensures Marked(s, c).files == s.files && Marked(s, c).certDir == s.certDir
  {
  }

  /** The moving call keeps its own record straight. */
  lemma MovedCallWritesOwn(s: State, k: nat, input: Input)
    requires k in s.calls && !s.calls[k].pc.Returned? && KindOk(s.calls[k]) && WritesOwn(s, s.calls[k])
    requires forall id :: id in s.certificates.rows ==> id < s.certificates.nextId
    ensures var s' := Advance(s, k, input); KindOk(s'.calls[k]) && WritesOwn(s', s'.calls[k])
    ensures Advance(s, k, input).certificates.nextId == s.certificates.nextId
  {
    hide NewJob, Writable, ChainPath, KeyPath, Format, HasRunning, LatestFailedSince, ScanCertificate;
    PathsDistinct(s.certDir, s.calls[k].cert, s.calls[k].cert);
  }

  lemma OtherCallWritesOwn(s: State, s': State, c: Call, cert: nat)
    requires WritesOwn(s, c) && OtherFilesKept(s, s', cert) && s'.certDir == s.certDir
    requires s'.certificates.nextId >= s.certificates.nextId
    requires IsAcme(c.kind) && !c.pc.Returned? ==> c.cert != cert || s'.files == s.files
    ensures WritesOwn(s', c)
  {
    hide ChainPath, KeyPath;
    if c.cert != cert {
      assert SameFile(s, s', ChainPath(s.certDir, c.cert)) && SameFile(s, s', KeyPath(s.certDir, c.cert));
    }
  }

  /** The certificate of the moving call is consistent again as soon as the call stops writing. */
  lemma OwnCertificateAgrees(s: State, k: nat, input: Input)
    requires Filed(s) && k in s.calls && !s.calls[k].pc.Returned? && IsAcme(s.calls[k].kind) && Calm(s, Step(k, input))
    ensures var s', id := Advance(s, k, input), s.calls[k].cert;
      id in s'.certificates.rows && s'.certificates.rows[id].status.Active? && !Writing(s'.calls[k], id) ==>
      Agrees(s', id)
  {
    hide ChainPath, KeyPath, Format, NewJob;
    var c, s' := s.calls[k], Advance(s, k, input);
    var id := c.cert;
    assert KindOk(c) && WritesOwn(s, c);
    if c.pc.KeyWritten? {
      hide Filed;
    } else if !Writing(c, id) {
      OnlyCallInFlight(s, k, id);
      assert !BeingWritten(s, id);
      assert id in s.certificates.rows && s.certificates.rows[id].status.Active? ==> Agrees(s, id);
      hide Filed, Guarded, Writable, HasRunning, WritesOwn;
    } else {
      hide Filed, Guarded, Wrote, WritesOwn;
    }
  }

  lemma OnlyCallInFlight(s: State, k: nat, id: nat)
    requires Filed(s) && k in s.calls && InFlight(s.calls[k], id)
    ensures forall m :: m in s.calls && InFlight(s.calls[m], id) ==> m == k
  {
    hide WritesOwn, Agrees, KindOk, InFlight;
  }

  lemma OtherCertificateAgrees(s: State, s': State, id: nat)
    requires id in s.certificates.rows && Agrees(s, id) && s'.certDir == s.certDir
    requires SameFile(s, s', ChainPath(s.certDir, id)) && SameFile(s, s', KeyPath(s.certDir, id))
    requires id in s'.history.issued && s'.history.issued[id] == s.history.issued[id]
    requires id in s'.certificates.rows && var row, row' := s.certificates.rows[id], s'.certificates.rows[id];
      row'.certPath == row.certPath && row'.keyPath == row.keyPath && row'.expiresAt == row.expiresAt
    ensures Agrees(s', id)
  {
    hide ChainPath, KeyPath, Format;
  }

  /** A statement of call k leaves the rows and the recorded results of other certificates alone. */
  lemma OtherRowsKept(s: State, k: nat, input: Input, id: nat)
    requires k in s.calls && !s.calls[k].pc.Returned? && id != s.calls[k].cert
    ensures var s' := Advance(s, k, input);
      && (id in s'.certificates.rows <==> id in s.certificates.rows)
      && (id in s.certificates.rows ==> s'.certificates.rows[id] == s.certificates.rows[id])
      && (id in s'.history.issued <==> id in s.history.issued)
      && (id in s.history.issued ==> s'.history.issued[id] == s.history.issued[id])
  {
    hide Guarded, NewJob, Wrote, Writable, Format, ChainPath, KeyPath, MarkFails;
  }

  lemma OtherKindsTouchNothing(s: State, k: nat, input: Input)
    requires k in s.calls && !s.calls[k].pc.Returned? && !IsAcme(s.calls[k].kind) && KindOk(s.calls[k])
    ensures var s' := Advance(s, k, input);
      s'.certificates == s.certificates && s'.files == s.files && s'.history.issued == s.history.issued
  {
    hide NewJob, HasRunning, LatestFailedSince, ScanCertificate;
  }

  lemma AdvanceFiled(s: State, k: nat, input: Input)
    requires Filed(s) && Enabled(s, Step(k, input)) && Calm(s, Step(k, input))
    ensures Filed(Advance(s, k, input))
  {
    hide Advance, WritesOwn, KindOk, Agrees, ChainPath, KeyPath;
    var c, s' := s.calls[k], Advance(s, k, input);
    assert KindOk(c) && WritesOwn(s, c);
    FileEffects(s, k, input);
    MovedCallWritesOwn(s, k, input);
    if IsAcme(c.kind) {
      OwnCertificateAgrees(s, k, input);
    } else {
      OtherKindsTouchNothing(s, k, input);
    }
    CallsFiled(s, k, input);
    forall id | id in s'.certificates.rows
      ensures id < s'.certificates.nextId
      ensures s'.certificates.rows[id].status.Active? && !BeingWritten(s', id) ==> Agrees(s', id)
    {
      CertificateFiled(s, k, input, id);
    }
  }

  lemma CallsFiled(s: State, k: nat, input: Input)
    requires Filed(s) && Enabled(s, Step(k, input))
    requires OtherFilesKept(s, Advance(s, k, input), s.calls[k].cert)
    requires !IsAcme(s.calls[k].kind) ==> Advance(s, k, input).files == s.files
    requires Advance(s, k, input).certificates.nextId == s.certificates.nextId
    ensures var s' := Advance(s, k, input);
      && (forall m :: m in s'.calls && m != k ==> KindOk(s'.calls[m]) && WritesOwn(s', s'.calls[m]))
      && (forall m, n, id ::
        m in s'.calls && n in s'.calls && InFlight(s'.calls[m], id) && InFlight(s'.calls[n], id) ==> m == n)
  {
    hide Advance, WritesOwn, KindOk, Agrees, OtherFilesKept, BeingWritten;
    var c, s' := s.calls[k], Advance(s, k, input);
    assert forall m, id :: m in s'.calls && InFlight(s'.calls[m], id) ==> m in s.calls && InFlight(s.calls[m], id);
    forall m | m in s'.calls && m != k
      ensures KindOk(s'.calls[m]) && WritesOwn(s', s'.calls[m])
    {
      assert s'.calls[m] == s.calls[m];
      assert InFlight(s.calls[m], c.cert) && InFlight(c, c.cert) ==> m == k;
      OtherCallWritesOwn(s, s', s.calls[m], c.cert);
    }
  }

  lemma CertificateFiled(s: State, k: nat, input: Input, id: nat)
    requires Filed(s) && Enabled(s, Step(k, input))
    requires id in Advance(s, k, input).certificates.rows
    requires OtherFilesKept(s, Advance(s, k, input), s.calls[k].cert)
    requires var s', c := Advance(s, k, input), s.calls[k];
      if IsAcme(c.kind) then
        var id := c.cert;
        id in s'.certificates.rows && s'.certificates.rows[id].status.Active? && !Writing(s'.calls[k], id) ==>
        Agrees(s', id)
      else s'.certificates == s.certificates && s'.files == s.files && s'.history.issued == s.history.issued
    ensures var s' := Advance(s, k, input);
      && id < s.certificates.nextId
      && (s'.certificates.rows[id].status.Active? && !BeingWritten(s', id) ==> Agrees(s', id))
  {
    hide Advance, WritesOwn, KindOk, Agrees, ChainPath, KeyPath;
    var c, s' := s.calls[k], Advance(s, k, input);
    CertificateEffects(s, k, input);
    RowsAmong(s, k, input, id);
    if s'.certificates.rows[id].status.Active? && !BeingWritten(s', id) {
      assert !Writing(s'.calls[k], id);
      if id != c.cert || !IsAcme(c.kind) {
        assert !BeingWritten(s, id) by {
          assert forall m :: m in s.calls && Writing(s.calls[m], id) ==> m != k && s'.calls[m] == s.calls[m];
        }
        if id != c.cert {
          OtherRowsKept(s, k, input, id);
        }
        hide Filed;
        AgreesHere(s, id);
        assert SameFile(s, s', ChainPath(s.certDir, id)) && SameFile(s, s', KeyPath(s.certDir, id));
        OtherCertificateAgrees(s, s', id);
      }
    }
  }

  lemma RowsAmong(s: State, k: nat, input: Input, id: nat)
    requires k in s.calls && !s.calls[k].pc.Returned? && id in Advance(s, k, input).certificates.rows
    ensures id in s.certificates.rows
  {
    hide Advance, Format, ChainPath, KeyPath, MarkFails;
    CertificateEffects(s, k, input);
  }

  lemma AgreesHere(s: State, id: nat)
    requires id in s.certificates.rows && Agrees(s, id)
    ensures id in s.history.issued
  {
  }

  // ---------- every calm run ----------

  lemma SameFiled(s: State, s': State)
    requires Filed(s) && s'.certDir == s.certDir && s'.files == s.files && s'.calls == s.calls
    requires s'.history == s.history && s'.certificates.nextId >= s.certificates.nextId
    requires forall id :: id in s'.certificates.rows ==> id < s'.certificates.nextId
    requires forall id :: id in s'.certificates.rows && s'.certificates.rows[id].status.Active? ==>
      id in s.certificates.rows && SameButProfile(s.certificates.rows[id], s'.certificates.rows[id])
    ensures Filed(s')
  {
    hide ChainPath, KeyPath, Format;
    assert forall id :: BeingWritten(s', id) <==> BeingWritten(s, id);
  }

  predicate SameButProfile(row: CertificateRow, row': CertificateRow) {
    row' == row.(profile := row'.profile)
  }

  lemma BeginFiled(s: State, e: Event)
    requires Filed(s) && e.Begin? && Enabled(s, e) && Calm(s, e)
    ensures Filed(Next(s, e))
  {
    hide ChainPath, KeyPath, Format;
    var s' := Next(s, e);
    forall id
      ensures BeingWritten(s', id) <==> BeingWritten(s, id)
    {
      if BeingWritten(s, id) {
        var k :| k in s.calls && Writing(s.calls[k], id);
        assert k in s'.calls && s'.calls[k] == s.calls[k];
      }
    }
  }

  lemma StepFiled(s: State, e: Event)
    requires Filed(s) && Enabled(s, e) && Calm(s, e)
    ensures Filed(Next(s, e))
  {
    hide Advance, ChainPath, KeyPath, Format, Agrees, WritesOwn, BeingWritten, KindOk;
    if e.Step? {
      AdvanceFiled(s, e.call, e.input);
      SameFiled(Advance(s, e.call, e.input), Next(s, e));
    } else if e.Begin? {
      BeginFiled(s, e);
    } else {
      SameFiled(s, Next(s, e));
    }
  }

  lemma {:induction false} RunFiled(states: seq<State>, events: seq<Event>, i: nat)
    requires IsRun(states, events) && i < |states|
    requires forall n :: 0 <= n < |events| ==> Calm(states[n], events[n])
    ensures Filed(states[i])
  {
    hide Enabled, Next, Calm;
    if i > 0 {
      hide Filed;
      RunFiled(states, events, i - 1);
      StepFiled(states[i - 1], events[i - 1]);
    }
  }

  /**
   * While no call is in flight on it, an active certificate has at its paths the chain and the key of one ACME
   * result, and the expiry read from its row is the NotAfter of the first certificate of that chain.
   */
  lemma ActiveMatchesFiles(states: seq<State>, events: seq<Event>, i: nat, id: nat)
    requires IsRun(states, events) && i < |states|
    requires forall n :: 0 <= n < |events| ==> Calm(states[n], events[n])
    requires id in states[i].certificates.rows && states[i].certificates.rows[id].status.Active?
    requires forall k :: k in states[i].calls ==> !InFlight(states[i].calls[k], id)
    ensures var s, row := states[i], states[i].certificates.rows[id];
      && row.certPath in s.files && row.keyPath in s.files && id in s.history.issued
      && s.files[row.certPath] == s.history.issued[id].chain && s.files[row.keyPath] == s.history.issued[id].key
      && ScanCertificate(id, row).Ok? && ScanCertificate(id, row).value.expiresAt.Some?
      && ScanCertificate(id, row).value.expiresAt == Expiry(s.files[row.certPath].blocks)
      && FirstCertificateExpires(s.files[row.certPath].blocks, ScanCertificate(id, row).value.expiresAt.value)
  {
    hide Enabled, Next, Calm, ChainPath, KeyPath, Format, Parse;
    RunFiled(states, events, i);
    var s := states[i];
    assert !BeingWritten(s, id) by {
      assert forall k :: k in s.calls && Writing(s.calls[k], id) ==> InFlight(s.calls[k], id);
    }
    assert Agrees(s, id);
    var expiry := Expiry(s.history.issued[id].chain.blocks).value;
    ParseOfFormat(expiry);
    ExpiryIff(s.history.issued[id].chain.blocks, expiry);
  }
}
