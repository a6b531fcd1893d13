/** Creating, editing, linking and deleting certificates. */
module CertificateUseCases {
  import opened Wrappers
  import opened Text
  import opened TimeText
  import opened Domain
  import opened Tables
  import opened Links
  import opened Databases
  import opened FormLines

  const MIN_RENEW_BEFORE_DAYS := 1
  const MAX_RENEW_BEFORE_DAYS := 90

  /** The form as posted; `emailParses` is mail.ParseAddress on the trimmed email. */
  datatype CertificateInput = CertificateInput(
    name: string, email: string, emailParses: bool, domainsText: string, snisText: string, autoRenew: bool,
    renewBeforeDays: int)

  // ---------- specification ----------

  function ProfileOf(input: CertificateInput): Profile {
    var domains := Lines(input.domainsText);
    var primaryDomain := if domains == [] then "" else domains[0];
    Profile(Trim(input.name), primaryDomain, domains, Trim(input.email), Lines(input.snisText), input.autoRenew,
            input.renewBeforeDays)
  }

  /** The columns that always come from the form. */
  predicate FromForm(p: Profile, input: CertificateInput) {
    && p.name == Trim(input.name) && p.email == Trim(input.email)
    && p.autoRenew == input.autoRenew && p.renewBeforeDays == input.renewBeforeDays
  }

  predicate Acceptable(p: Profile, emailParses: bool) {
    && p.name != "" && p.email != "" && emailParses && p.domains != [] && p.snis != []
    && MIN_RENEW_BEFORE_DAYS <= p.renewBeforeDays <= MAX_RENEW_BEFORE_DAYS
  }

  predicate IsIssuedRow(row: CertificateRow) {
    !Blank(row.certPath) || !Blank(row.keyPath) || row.expiresAt.Some?
  }

  /** An issued certificate keeps its names: the form's lists are replaced by the stored ones. */
  function Locked(row: CertificateRow, input: CertificateInput): CertificateInput {
    if IsIssuedRow(row) then
      input.(domainsText := Join(row.profile.domains, '\n'), snisText := Join(row.profile.snis, '\n'))
    else input
  }

  /** The edit goes through. */
  predicate Editable(t: Certificates, id: nat, input: CertificateInput) {
    && id in t.rows && ScanCertificate(id, t.rows[id]).Ok?
    && Acceptable(ProfileOf(Locked(t.rows[id], input)), input.emailParses)
  }

  function Edited(t: Certificates, id: nat, input: CertificateInput): Certificates {
    if Editable(t, id, input) then UpdateProfile(t, id, ProfileOf(Locked(t.rows[id], input))) else t
  }

  /** What every stored profile is: both lists hold items, and the primary domain is the first domain. */
  ghost predicate WellFormed(p: Profile) {
    && IsItemList(p.domains) && p.domains != [] && p.primaryDomain == p.domains[0]
    && IsItemList(p.snis) && p.snis != []
  }

  lemma AcceptableIsWellFormed(input: CertificateInput)
    requires Acceptable(ProfileOf(input), input.emailParses)
    ensures WellFormed(ProfileOf(input))
  {
    hide Lines, Trim;
    LinesAreItems(input.domainsText);
    LinesAreItems(input.snisText);
  }

  predicate SameNames(a: Profile, b: Profile) {
    a.domains == b.domains && a.snis == b.snis && a.primaryDomain == b.primaryDomain
  }

  /** Whatever the form contains, editing an issued certificate leaves its domains, SNIs and primary domain. */
  lemma IssuedKeepsNames(row: CertificateRow, input: CertificateInput)
    requires IsIssuedRow(row) && WellFormed(row.profile)
    ensures SameNames(ProfileOf(Locked(row, input)), row.profile)
  {
    hide Lines, Trim, Join, Blank;
    LinesOfJoin(row.profile.domains);
    LinesOfJoin(row.profile.snis);
  }

  // ---------- over runs ----------

  datatype FormOp =
    | Enter(input: CertificateInput) | Edit(id: nat, input: CertificateInput) | Drop(id: nat)
    | Issued(id: nat, certPath: string, keyPath: string, expiresAt: int) | SetStatus(id: nat, status: CertificateStatus)

  /** What an operation of the application does to the certificates table. */
  function Apply(t: Certificates, op: FormOp): Certificates {
    match op
    case Enter(input) =>
      if Acceptable(ProfileOf(input), input.emailParses) then InsertCertificate(t, ProfileOf(input)) else t
    case Edit(id, input) => Edited(t, id, input)
    case Drop(id) => DeleteCertificate(t, id)
    case Issued(id, certPath, keyPath, expiresAt) => MarkIssued(t, id, certPath, keyPath, expiresAt)
    case SetStatus(id, status) => UpdateStatus(t, id, status)
  }

  function Run(ops: seq<FormOp>): Certificates {
    if ops == [] then Certificates(map[], 1) else Apply(Run(ops[..|ops| - 1]), ops[|ops| - 1])
  }

  ghost predicate AllWellFormed(t: Certificates) {
    forall id :: id in t.rows ==> id < t.nextId && WellFormed(t.rows[id].profile)
  }

  lemma ApplyKeeps(t: Certificates, op: FormOp, id: nat)
    requires AllWellFormed(t)
    ensures AllWellFormed(Apply(t, op)) && t.nextId <= Apply(t, op).nextId
    ensures id < t.nextId && id in Apply(t, op).rows ==> id in t.rows
    ensures id in t.rows && id in Apply(t, op).rows && IsIssuedRow(t.rows[id]) ==>
      IsIssuedRow(Apply(t, op).rows[id]) && SameNames(t.rows[id].profile, Apply(t, op).rows[id].profile)
    ensures op.Issued? && op.id in t.rows ==> IsIssuedRow(Apply(t, op).rows[op.id])
  {
    hide ProfileOf, Locked, Acceptable, Blank, ScanCertificate, WellFormed, Format;
    match op {
      case Enter(input) =>
        if Acceptable(ProfileOf(input), input.emailParses) {
          AcceptableIsWellFormed(input);
        }
      case Edit(k, input) =>
        if Editable(t, k, input) {
          LockedKeepsEmail(t.rows[k], input);
          AcceptableIsWellFormed(Locked(t.rows[k], input));
          if IsIssuedRow(t.rows[k]) {
            IssuedKeepsNames(t.rows[k], input);
          }
        }
      case _ =>
    }
  }

  lemma LockedKeepsEmail(row: CertificateRow, input: CertificateInput)
    ensures Locked(row, input).emailParses == input.emailParses
  {
    hide Blank;
  }

  lemma {:induction false} RunWellFormed(ops: seq<FormOp>)
    ensures AllWellFormed(Run(ops))
  {
    hide Apply, AllWellFormed;
    if ops == [] {
      assert AllWellFormed(Run(ops)) by { NoRows(); }
    } else {
      RunWellFormed(ops[..|ops| - 1]);
      ApplyKeeps(Run(ops[..|ops| - 1]), ops[|ops| - 1], 0);
    }
  }

  lemma NoRows()
    ensures AllWellFormed(Certificates(map[], 1))
  {
  }

  /** In every run, once a certificate is issued its domains, SNIs and primary domain never change while it exists. */
  lemma {:induction false} NamesNeverChange(ops: seq<FormOp>, n: nat, id: nat)
    requires n <= |ops| && id in Run(ops[..n]).rows && IsIssuedRow(Run(ops[..n]).rows[id])
    requires id in Run(ops).rows
    ensures IsIssuedRow(Run(ops).rows[id]) && SameNames(Run(ops[..n]).rows[id].profile, Run(ops).rows[id].profile)
  {
    hide Apply, IsIssuedRow, AllWellFormed;
    if n == |ops| {
      assert ops[..n] == ops;
    } else {
      var m := |ops| - 1;
      assert ops[..m][..n] == ops[..n];
      RunWellFormed(ops[..m]);
      NextIdGrows(ops[..m], n);
      IdBelow(ops[..n], id);
      ApplyKeeps(Run(ops[..m]), ops[m], id);
      NamesNeverChange(ops[..m], n, id);
    }
  }

  lemma IdBelow(ops: seq<FormOp>, id: nat)
    requires id in Run(ops).rows
    ensures id < Run(ops).nextId
  {
    hide Run, WellFormed;
    RunWellFormed(ops);
  }

  lemma {:induction false} NextIdGrows(ops: seq<FormOp>, n: nat)
    requires n <= |ops|
    ensures Run(ops[..n]).nextId <= Run(ops).nextId
  {
    hide Apply, AllWellFormed;
    if n == |ops| {
      assert ops[..n] == ops;
    } else {
      var m := |ops| - 1;
      assert ops[..m][..n] == ops[..n];
      NextIdGrows(ops[..m], n);
      RunWellFormed(ops[..m]);
      ApplyKeeps(Run(ops[..m]), ops[m], 0);
    }
  }

  // ---------- the use case ----------

  method ValidateCertificateInput(input: CertificateInput) returns (r: Result<Profile>)
    ensures r.Ok? <==> Acceptable(ProfileOf(input), input.emailParses)
    ensures r.Ok? ==> r.value == ProfileOf(input)
    ensures r.Ok? <==>
      && Trim(input.name) != "" && Trim(input.email) != "" && input.emailParses
      && Lines(input.domainsText) != [] && Lines(input.snisText) != [] && 1 <= input.renewBeforeDays <= 90
    ensures r.Ok? ==> FromForm(r.value, input)
    ensures r.Ok? ==> r.value.domains == Lines(input.domainsText) && r.value.snis == Lines(input.snisText)
    ensures r.Ok? ==> r.value.primaryDomain == Lines(input.domainsText)[0]
  {
    hide Trim;
    var domains := SplitLines(input.domainsText);
    var snis := SplitLines(input.snisText);
    var primaryDomain := "";
    if |domains| > 0 {
      primaryDomain := domains[0];
    }
    var name, email := Trim(input.name), Trim(input.email);
    var p := Profile(name, primaryDomain, domains, email, snis, input.autoRenew, input.renewBeforeDays);
    var fields: set<string> := {};
    if p.name == "" {
      fields := fields + {"name"};
    }
    if p.email == "" || !input.emailParses {
      fields := fields + {"email"};
    }
    if |p.domains| == 0 {
      fields := fields + {"domains"};
    }
    if |p.snis| == 0 {
      fields := fields + {"snis"};
    }
    if p.renewBeforeDays < MIN_RENEW_BEFORE_DAYS || p.renewBeforeDays > MAX_RENEW_BEFORE_DAYS {
      fields := fields + {"renew_before_days"};
    }
    return if fields != {} then Err("invalid input") else Ok(p);
  }

  /** The certificate page calls a certificate synced. */
  method AllLinkedTargetsSynced(links: seq<Mapping>) returns (synced: bool)
    ensures synced <==> |links| > 0 && forall i :: 0 <= i < |links| ==>
      links[i].status == Synced && !Blank(links[i].kongCertificateId) && Blank(links[i].lastError)
  {
    if |links| == 0 {
      return false;
    }
    for i := 0 to |links|
      invariant forall j :: 0 <= j < i ==> ShowsSynced(links[j])
    {
      if !links[i].status.Synced? || Blank(links[i].kongCertificateId) || !Blank(links[i].lastError) {
        assert !ShowsSynced(links[i]);
        return false;
      }
    }
    return true;
  }

  predicate ShowsSynced(link: Mapping) {
    link.status.Synced? && !Blank(link.kongCertificateId) && Blank(link.lastError)
  }

  class CertificateUseCase {
    const database: Database

    constructor (database: Database)
      ensures this.database == database
    {
      this.database := database;
    }

    method Create(input: CertificateInput, fault: bool) returns (r: Result<nat>)
      requires database.Valid()
      modifies database`certificates
      ensures database.Valid()
      ensures r.Ok? <==> !fault && Acceptable(ProfileOf(input), input.emailParses)
      ensures r.Ok? ==> r.value == old(database.certificates).nextId
      ensures database.certificates ==
        if fault then old(database.certificates) else Apply(old(database.certificates), Enter(input))
      ensures r.Ok? ==> r.value in database.certificates.rows && var row := database.certificates.rows[r.value];
        && FromForm(row.profile, input)
        && row.profile.domains == Lines(input.domainsText) && row.profile.domains != []
        && row.profile.primaryDomain == row.profile.domains[0] && row.profile.snis == Lines(input.snisText)
        && row.certPath == "" && row.keyPath == "" && row.expiresAt == None && row.status == Pending
      ensures r.Ok? ==> forall id :: id in old(database.certificates).rows ==>
        id in database.certificates.rows && database.certificates.rows[id] == old(database.certificates).rows[id]
      ensures r.Err? ==> database.certificates == old(database.certificates)
    {
      hide ProfileOf, Acceptable, Trim, Lines;
      var profile := ValidateCertificateInput(input);
      if profile.Err? {
        return Err(profile.error);
      }
      r := database.CreateCertificate(profile.value, fault);
    }

    method Update(input: CertificateInput, id: nat, getFault: bool, updateFault: bool) returns (r: Outcome)
      requires database.Valid()
      modifies database`certificates
      ensures database.Valid()
      ensures r.Nil? <==> !getFault && !updateFault && Editable(old(database.certificates), id, input)
      ensures database.certificates ==
        if r.Nil? then Apply(old(database.certificates), Edit(id, input)) else old(database.certificates)
      ensures SameOthers(old(database.certificates), database.certificates, id)
      ensures r.Nil? ==> var row, row' := old(database.certificates).rows[id], database.certificates.rows[id];
        && FromForm(row'.profile, input)
        && row'.certPath == row.certPath && row'.keyPath == row.keyPath
        && row'.expiresAt == row.expiresAt && row'.status == row.status
        && if !Blank(row.certPath) || !Blank(row.keyPath) || row.expiresAt != None then
             WellFormed(row.profile) ==> SameNames(row'.profile, row.profile)
           else row'.profile.domains == Lines(input.domainsText) && row'.profile.snis == Lines(input.snisText)
    {
      hide ProfileOf, Acceptable, Trim, Lines, Blank;
      var existing := database.GetCertificate(id, getFault);
      if existing.Err? {
        return Error(existing.error);
      }
      var c, form := existing.value, input;
      if IsIssuedCertificate(c) && WellFormed(database.certificates.rows[id].profile) {
        IssuedKeepsNames(database.certificates.rows[id], input);
      }
      if IsIssuedCertificate(c) {
        form := form.(domainsText := Join(c.profile.domains, '\n'));
        form := form.(snisText := Join(c.profile.snis, '\n'));
      }
      var profile := ValidateCertificateInput(form);
      if profile.Err? {
        return Error(profile.error);
      }
      r := database.UpdateCertificate(c.id, profile.value, updateFault);
    }

    predicate IsIssuedCertificate(c: Certificate) {
      !Blank(c.certPath) || !Blank(c.keyPath) || c.expiresAt.Some?
    }

    method Delete(id: nat, fault: bool) returns (r: Outcome)
      requires database.Valid()
      modifies database`certificates, database`jobs, database`links
      ensures database.Valid()
      ensures r.Nil? <==> !fault && id in old(database.certificates).rows
      ensures database.certificates ==
        if r.Nil? then Apply(old(database.certificates), Drop(id)) else old(database.certificates)
      ensures forall pair :: pair in database.links.rows <==>
        pair in old(database.links).rows && (r.Nil? ==> pair.0 != id)
      ensures forall pair :: pair in database.links.rows ==> database.links.rows[pair] == old(database.links).rows[pair]
      ensures database.jobs.rows.Keys == old(database.jobs).rows.Keys
    {
      r := database.DeleteCertificateRow(id, fault);
    }

    /** `listFault` is the failing target list, `linkFault` the failing statement of the transaction. */
    method UpdateLinkedTargets(id: nat, targetIds: seq<int>, getFault: bool, listFault: bool, linkFault: Option<nat>)
      returns (r: Outcome)
      requires database.Valid()
      modifies database`links
      ensures database.Valid()
      ensures r.Error? ==> database.links == old(database.links)
      ensures (exists target: int :: target in targetIds && target > 0 && target !in database.targets.ids) ==> r.Error?
      ensures linkFault.None? ==> (r.Nil? <==> !getFault && !listFault && Reachable(id, targetIds))
      ensures r.Nil? ==> LinksAre(old(database.links), database.links, id, targetIds)
    {
      var existing := database.GetCertificate(id, getFault);
      if existing.Err? {
        return Error(existing.error);
      }
      if listFault {
        return Error(FAULT);
      }
      var allowed := database.targets.ids;
      var normalized := UniqueSortedIds(targetIds);
      var ids: seq<nat> := [];
      for i := 0 to |normalized|
        invariant forall id :: id in ids <==> id in normalized[..i]
        invariant forall j :: 0 <= j < i ==> normalized[j] in allowed
      {
        if normalized[i] !in allowed {
          assert normalized[i] in normalized;
          return Error("Select valid Kong targets.");
        }
        assert normalized[..i + 1] == normalized[..i] + [normalized[i]];
        ids := ids + [normalized[i]];
      }
      assert normalized[..|normalized|] == normalized;
      r := database.SetLinkedTargets(id, ids, linkFault);
      RelinkedMeaning(old(database.links), id, ids);
    }

    /** The certificate can be read and every positive id is a target. */
    ghost predicate Reachable(id: nat, targetIds: seq<int>)
      reads database
    {
      && id in database.certificates.rows && ScanCertificate(id, database.certificates.rows[id]).Ok?
      && forall target: int :: target in targetIds && target > 0 ==> target in database.targets.ids
    }
  }

  /** The certificate is linked to exactly the positive ids; rows that stay keep every field; new rows are blank. */
  ghost predicate LinksAre(t: Links, t': Links, id: nat, targetIds: seq<int>) {
    && (forall target :: (id, target) in t'.rows <==> target in targetIds && target > 0)
    && (forall pair :: pair in t'.rows && pair in t.rows ==> t'.rows[pair] == t.rows[pair])
    && (forall pair :: pair in t'.rows && pair !in t.rows ==>
      t'.rows[pair] == Link(t'.rows[pair].id, "", NotSynced, None, "") && t'.rows[pair].id >= t.nextId)
    && (forall pair: Pair :: pair.0 != id ==> (pair in t'.rows <==> pair in t.rows))
  }

  /** Marking and setting a status, as operations on the table: no other row, and only the columns they name. */
  lemma OnlyItsColumns(t: Certificates, op: FormOp)
    requires op.Issued? || op.SetStatus?
    ensures SameOthers(t, Apply(t, op), op.id)
    ensures op.id in t.rows ==> var row, row' := t.rows[op.id], Apply(t, op).rows[op.id];
      row' == if op.Issued?
        then CertificateRow(row.profile, op.certPath, op.keyPath, Some(Format(op.expiresAt)), Active)
        else CertificateRow(row.profile, row.certPath, row.keyPath, row.expiresAt, op.status)
  {
    hide Format;
  }
}
