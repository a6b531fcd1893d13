/**
 * Editing a certificate while it is being issued. An edit reads the row, decides from it whether the names are
 * locked, and writes the form columns in a later statement; other operations may come in between.
 */
module EditRaces {
  import opened TimeText
  import opened Domain
  import opened Tables
  import opened CertificateUseCases

  /** The UPDATE of an edit whose Get has read `read`. */
  function EditedFrom(t: Certificates, id: nat, input: CertificateInput, read: CertificateRow): Certificates {
    if Acceptable(ProfileOf(Locked(read, input)), input.emailParses) then
      UpdateProfile(t, id, ProfileOf(Locked(read, input)))
    else t
  }

  /** With nothing in between it is the sequential edit. */
  lemma EditedFromNow(t: Certificates, id: nat, input: CertificateInput)
    requires id in t.rows && ScanCertificate(id, t.rows[id]).Ok?
    ensures EditedFrom(t, id, input, t.rows[id]) == Edited(t, id, input)
  {
    hide ProfileOf, Acceptable, ScanCertificate;
    LockedKeepsEmail(t.rows[id], input);
  }

  /** The edit writes. */
  predicate Writes(read: CertificateRow, input: CertificateInput) {
    Acceptable(ProfileOf(Locked(read, input)), input.emailParses)
  }

  /**
   * An edit keeps the names in the table exactly when it writes nothing, or the row it read was already issued
   * and had these names, or the row it read was not issued and the form repeats these names.
   */
  lemma EditKeepsNamesIff(t: Certificates, id: nat, input: CertificateInput, read: CertificateRow)
    requires id in t.rows && WellFormed(read.profile)
    ensures SameNames(EditedFrom(t, id, input, read).rows[id].profile, t.rows[id].profile) <==>
      || !Writes(read, input)
      || SameNames(if IsIssuedRow(read) then read.profile else ProfileOf(input), t.rows[id].profile)
  {
    hide ProfileOf, Acceptable, IsIssuedRow, WellFormed;
    if IsIssuedRow(read) {
      IssuedKeepsNames(read, input);
    } else {
      UnlockedForm(read, input);
    }
  }

  lemma UnlockedForm(row: CertificateRow, input: CertificateInput)
    requires !IsIssuedRow(row)
    ensures Locked(row, input) == input
  {
  }

  /** The race happens: a form read before the issue changes the names after it. */
  lemma StaleEditChangesNames(first: CertificateInput, second: CertificateInput, expiresAt: int)
    requires Acceptable(ProfileOf(first), first.emailParses) && Acceptable(ProfileOf(second), second.emailParses)
    requires !SameNames(ProfileOf(second), ProfileOf(first))
    ensures var before, after := Run([Enter(first)]), Run([Enter(first), Issued(1, "c", "k", expiresAt)]);
      && 1 in before.rows && 1 in after.rows && IsIssuedRow(after.rows[1])
      && !SameNames(EditedFrom(after, 1, second, before.rows[1]).rows[1].profile, after.rows[1].profile)
  {
    hide ProfileOf, Acceptable, WellFormed, Format;
    assert [Enter(first), Issued(1, "c", "k", expiresAt)][..1] == [Enter(first)] && [Enter(first)][..0] == [];
    var before, after := Run([Enter(first)]), Run([Enter(first), Issued(1, "c", "k", expiresAt)]);
    assert Run([]) == Certificates(map[], 1);
    assert before == Apply(Run([]), Enter(first)) && after == Apply(before, Issued(1, "c", "k", expiresAt));
    AcceptableIsWellFormed(first);
    BlankPaths(before.rows[1]);
    EditKeepsNamesIff(after, 1, second, before.rows[1]);
    UnlockedForm(before.rows[1], second);
  }

  lemma BlankPaths(row: CertificateRow)
    requires row.certPath == "" && row.keyPath == "" && row.expiresAt.None?
    ensures !IsIssuedRow(row)
  {
  }

  // ---------- interleaved runs ----------

  /** The table, and for each edit in progress the certificate and the row it has read. */
  datatype Desk = Desk(table: Certificates, open: map<nat, (nat, CertificateRow)>)

  /** Any whole operation of the application, or the two statements of edit k. */
  datatype DeskOp = Whole(op: FormOp) | Get(edit: nat, id: nat) | Update(edit: nat, input: CertificateInput)

  function Do(d: Desk, op: DeskOp): Desk {
    match op
    case Whole(whole) => d.(table := Apply(d.table, whole))
    case Get(k, id) =>
      if id in d.table.rows && ScanCertificate(id, d.table.rows[id]).Ok? then
        d.(open := d.open[k := (id, d.table.rows[id])])
      else d.(open := d.open - {k})
    case Update(k, input) =>
      if k !in d.open then d
      else Desk(EditedFrom(d.table, d.open[k].0, input, d.open[k].1), d.open - {k})
  }

  /** An edit is in progress after its Get exactly when the certificate could be read, and then holds its row. */
  lemma GetReads(d: Desk, k: nat, id: nat)
    ensures var d' := Do(d, Get(k, id));
      && d'.table == d.table
      && (k in d'.open <==> id in d.table.rows && ScanCertificate(id, d.table.rows[id]).Ok?)
      && (k in d'.open ==> d'.open[k] == (id, d.table.rows[id]))
  {
    hide ScanCertificate;
  }

  function DeskAfter(ops: seq<DeskOp>): Desk {
    if ops == [] then Desk(Certificates(map[], 1), map[]) else Do(DeskAfter(ops[..|ops| - 1]), ops[|ops| - 1])
  }

  ghost predicate Orderly(d: Desk) {
    && AllWellFormed(d.table)
    && (forall k :: k in d.open ==> d.open[k].0 < d.table.nextId && WellFormed(d.open[k].1.profile))
  }

  lemma DoKeepsOrder(d: Desk, op: DeskOp)
    requires Orderly(d)
    ensures Orderly(Do(d, op)) && d.table.nextId <= Do(d, op).table.nextId
    ensures forall id :: id < d.table.nextId && id in Do(d, op).table.rows ==> id in d.table.rows
  {
    hide ProfileOf, Locked, Acceptable, WellFormed, ScanCertificate, Apply;
    match op {
      case Whole(whole) =>
        forall id: nat {
          ApplyKeeps(d.table, whole, id);
        }
      case Get(k, id) =>
      case Update(k, input) =>
        if k in d.open && Writes(d.open[k].1, input) {
          LockedKeepsEmail(d.open[k].1, input);
          AcceptableIsWellFormed(Locked(d.open[k].1, input));
        }
    }
  }

  lemma {:induction false} AlwaysOrderly(ops: seq<DeskOp>)
    ensures Orderly(DeskAfter(ops))
  {
    hide Do;
    if ops != [] {
      AlwaysOrderly(ops[..|ops| - 1]);
      DoKeepsOrder(DeskAfter(ops[..|ops| - 1]), ops[|ops| - 1]);
    }
  }

  /** The row, if it still exists, is issued under these names, and so is every copy an edit of it holds. */
  ghost predicate Settled(d: Desk, id: nat, names: Profile) {
    && id < d.table.nextId
    && (id in d.table.rows ==> IsIssuedRow(d.table.rows[id]) && SameNames(names, d.table.rows[id].profile))
    && (forall k :: k in d.open && d.open[k].0 == id ==>
      IsIssuedRow(d.open[k].1) && SameNames(names, d.open[k].1.profile))
  }

  lemma DoKeepsNames(d: Desk, op: DeskOp, id: nat, names: Profile)
    requires Orderly(d) && Settled(d, id, names)
    ensures Settled(Do(d, op), id, names)
  {
    hide ProfileOf, Locked, Acceptable, WellFormed, ScanCertificate, Apply, IsIssuedRow;
    match op {
      case Whole(whole) => ApplyKeeps(d.table, whole, id);
      case Get(k, other) =>
      case Update(k, input) =>
        if k in d.open {
          var (other, read) := d.open[k];
          if other == id && id in d.table.rows {
            EditKeepsNamesIff(d.table, id, input, read);
            EditKeepsPaths(d.table, id, input, read);
          } else {
            EditKeepsOthers(d.table, other, input, read, id);
          }
        }
    }
  }

  lemma EditKeepsPaths(t: Certificates, id: nat, input: CertificateInput, read: CertificateRow)
    requires id in t.rows
    ensures IsIssuedRow(EditedFrom(t, id, input, read).rows[id]) == IsIssuedRow(t.rows[id])
    ensures EditedFrom(t, id, input, read).nextId == t.nextId
  {
    hide ProfileOf, Locked, Acceptable;
  }

  lemma EditKeepsOthers(t: Certificates, other: nat, input: CertificateInput, read: CertificateRow, id: nat)
    requires other != id || id !in t.rows
    ensures var t' := EditedFrom(t, other, input, read);
      t'.nextId == t.nextId && (id in t'.rows <==> id in t.rows) && (id in t.rows ==> t'.rows[id] == t.rows[id])
  {
    hide ProfileOf, Locked, Acceptable;
  }

  /**
   * In every interleaving, if no edit of a certificate is in progress at a moment when it is issued, its
   * domains, SNIs and primary domain never change afterwards.
   */
  lemma {:induction false} NamesStayWithoutOpenEdits(ops: seq<DeskOp>, n: nat, id: nat)
    requires n <= |ops| && id in DeskAfter(ops[..n]).table.rows && IsIssuedRow(DeskAfter(ops[..n]).table.rows[id])
    requires forall k :: k in DeskAfter(ops[..n]).open ==> DeskAfter(ops[..n]).open[k].0 != id
    ensures Settled(DeskAfter(ops), id, DeskAfter(ops[..n]).table.rows[id].profile)
  {
    hide Do, IsIssuedRow, Settled, Orderly;
    if n == |ops| {
      assert ops[..n] == ops;
      AlwaysOrderly(ops);
      SettledNow(DeskAfter(ops), id);
    } else {
      var m := |ops| - 1;
      assert ops[..m][..n] == ops[..n];
      NamesStayWithoutOpenEdits(ops[..m], n, id);
      AlwaysOrderly(ops[..m]);
      DoKeepsNames(DeskAfter(ops[..m]), ops[m], id, DeskAfter(ops[..n]).table.rows[id].profile);
    }
  }

  lemma SettledNow(d: Desk, id: nat)
    requires Orderly(d) && id in d.table.rows && IsIssuedRow(d.table.rows[id])
    requires forall k :: k in d.open ==> d.open[k].0 != id
    ensures Settled(d, id, d.table.rows[id].profile)
  {
    hide IsIssuedRow, WellFormed;
  }
}
