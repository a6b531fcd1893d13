/** Links over whole runs of linking, syncing and deleting. */
module LinkRuns {
  import opened Wrappers
  import opened Text
  import opened TimeText
  import opened Domain
  import opened Links

  /** `stored`: the sync's write of the link row works. */
  datatype Op =
    | SetTargets(cert: nat, targets: seq<nat>)
    | SyncLink(cert: nat, target: nat, readError: Option<string>, reply: Reply, now: int, stored: bool)
    | DropCertificate(cert: nat)
    | DropTarget(target: nat)

  /** The table, and in order the row ids of the links for which Kong answered a create with success. */
  datatype LinkState = LinkState(links: Links, creates: seq<nat>)

  predicate Creates(link: Link, op: Op)
    requires op.SyncLink?
  {
    MethodFor(link.kongCertificateId).Post? && Answered(op)
  }

  /** Kong was asked and answered with success. */
  predicate Answered(op: Op) {
    op.SyncLink? && op.readError.None? && Accepted(op.reply)
  }

  /** The answer names the certificate and the program stores that name. */
  predicate Named(op: Op) {
    Answered(op) && op.stored && op.reply.Body? && !Blank(op.reply.id)
  }

  /** The program stores a name of white space only. */
  predicate Blanked(op: Op) {
    Answered(op) && op.stored && op.reply.Body? && op.reply.id != "" && Blank(op.reply.id)
  }

  function Apply(s: LinkState, op: Op): LinkState {
    match op
    case SetTargets(cert, targets) => s.(links := Relinked(s.links, cert, targets))
    case SyncLink(cert, target, readError, reply, now, stored) =>
      if (cert, target) !in s.links.rows then s
      else
        var link := s.links.rows[(cert, target)];
        var link' := if stored then SyncedLink(link, readError, reply, now) else link;
        LinkState(
          s.links.(rows := s.links.rows[(cert, target) := link']),
          if Creates(link, op) then s.creates + [link.id] else s.creates)
    case DropCertificate(cert) =>
      s.(links := s.links.(rows := map pair | pair in s.links.rows && pair.0 != cert :: s.links.rows[pair]))
    case DropTarget(target) =>
      s.(links := s.links.(rows := map pair | pair in s.links.rows && pair.1 != target :: s.links.rows[pair]))
  }

  function Run(ops: seq<Op>): LinkState {
    if ops == [] then LinkState(Links(map[], 1), []) else Apply(Run(ops[..|ops| - 1]), ops[|ops| - 1])
  }

  ghost predicate Sound(s: LinkState) {
    && (forall pair :: pair in s.links.rows ==> Honest(s.links.rows[pair]) && s.links.rows[pair].id < s.links.nextId)
    && (forall p, q :: p in s.links.rows && q in s.links.rows && s.links.rows[p].id == s.links.rows[q].id ==> p == q)
  }

  lemma {:induction false} RelinkedSound(t: Links, cert: nat, targets: seq<nat>)
    requires Sound(LinkState(t, []))
    ensures Sound(LinkState(InsertAll(t, cert, targets), []))
  {
    if targets != [] {
      RelinkedSound(t, cert, targets[..|targets| - 1]);
    }
  }

  lemma ApplySound(s: LinkState, op: Op)
    requires Sound(s)
    ensures Sound(Apply(s, op))
  {
    hide SyncedLink, ClientResult, Blank;
    match op {
      case SetTargets(cert, targets) => RelinkedSound(KeepOnly(s.links, cert, targets), cert, targets);
      case SyncLink(cert, target, readError, reply, now, stored) =>
        if (cert, target) in s.links.rows {
          SyncedLinkFacts(s.links.rows[(cert, target)], readError, reply, now);
        }
      case _ =>
    }
  }

  /** In every run a link that says synced has a Kong id, no error and a time. */
  lemma {:induction false} RunSound(ops: seq<Op>)
    ensures Sound(Run(ops))
  {
    hide Apply;
    if ops != [] {
      RunSound(ops[..|ops| - 1]);
      ApplySound(Run(ops[..|ops| - 1]), ops[|ops| - 1]);
    }
  }

  /** A sync neither adds nor removes a row and leaves every other row alone. */
  lemma SyncKeepsRows(s: LinkState, op: Op)
    requires op.SyncLink?
    ensures Apply(s, op).links.rows.Keys == s.links.rows.Keys
    ensures forall pair :: pair in s.links.rows && pair != (op.cert, op.target) ==>
      Apply(s, op).links.rows[pair] == s.links.rows[pair]
  {
    hide SyncedLink, Creates;
  }

  /** The row of this pair, if it is still the row with this id. */
  predicate Lives(s: LinkState, pair: Pair, id: nat) {
    pair in s.links.rows && s.links.rows[pair].id == id
  }

  lemma IdStays(s: LinkState, op: Op, pair: Pair, id: nat)
    requires Sound(s) && Lives(Apply(s, op), pair, id) && id < s.links.nextId
    ensures Lives(s, pair, id)
    ensures s.links.rows[pair].kongCertificateId != "" ==> Apply(s, op).links.rows[pair].kongCertificateId != ""
    ensures (op.SyncLink? && pair == (op.cert, op.target)) || Apply(s, op).links.rows[pair] == s.links.rows[pair]
  {
    hide SyncedLink, ClientResult, Blank, Creates, Relinked;
    match op {
      case SetTargets(cert, targets) => RelinkedMeaning(s.links, cert, targets);
      case SyncLink(cert, target, readError, reply, now, stored) =>
        if (cert, target) in s.links.rows {
          SyncedLinkFacts(s.links.rows[(cert, target)], readError, reply, now);
        }
      case _ =>
    }
  }

  lemma {:induction false} NextIdGrows(ops: seq<Op>, n: nat)
    requires n <= |ops|
    ensures Run(ops[..n]).links.nextId <= Run(ops).links.nextId
  {
    hide SyncedLink, Creates;
    if n < |ops| {
      var m := |ops| - 1;
      NextIdGrows(ops[..m], n);
      assert ops[..m][..n] == ops[..n];
      if ops[m].SetTargets? {
        InsertAllMeaning(KeepOnly(Run(ops[..m]).links, ops[m].cert, ops[m].targets), ops[m].cert, ops[m].targets);
      }
    } else {
      assert ops[..n] == ops;
    }
  }

  /** While a link's row lives, its Kong id never becomes empty again, even after failed syncs. */
  lemma {:induction false} KongIdStays(ops: seq<Op>, n: nat, pair: Pair, id: nat)
    requires n <= |ops| && Lives(Run(ops[..n]), pair, id) && Lives(Run(ops), pair, id)
    requires Run(ops[..n]).links.rows[pair].kongCertificateId != ""
    ensures Run(ops).links.rows[pair].kongCertificateId != ""
  {
    hide Apply, Sound;
    if n < |ops| {
      var m := |ops| - 1;
      RunSound(ops[..m]);
      NextIdGrows(ops[..m], n);
      assert ops[..m][..n] == ops[..n];
      RunSound(ops[..n]);
      assert id < Run(ops[..n]).links.nextId by {
        LivingIdBelow(Run(ops[..n]), pair, id);
      }
      IdStays(Run(ops[..m]), ops[m], pair, id);
      KongIdStays(ops[..m], n, pair, id);
    } else {
      assert ops[..n] == ops;
    }
  }

  lemma LivingIdBelow(s: LinkState, pair: Pair, id: nat)
    requires Sound(s) && Lives(s, pair, id)
    ensures id < s.links.nextId
  {
  }

  // ---------- creates and updates ----------

  /** What a sync, of any kind and with any outcome, makes of the link it read. */
  function StoredLink(link: Link, op: Op): Link
    requires op.SyncLink?
  {
    if op.stored then SyncedLink(link, op.readError, op.reply, op.now) else link
  }

  /**
   * The next request for the link is an update exactly when the id then stored is not blank: the client's
   * result if it was stored, the old id otherwise. In terms of the answer: Kong has just named the
   * certificate, or the link was updated before and has not just been given a blank name.
   */
  lemma NextRequestUpdatesIff(link: Link, op: Op)
    requires op.SyncLink?
    ensures var next, current := MethodFor(StoredLink(link, op).kongCertificateId), link.kongCertificateId;
      var result := ClientResult(current, op.reply);
      && (next.Patch? <==>
        !Blank(if op.readError.None? && op.stored && result.Ok? then result.value else current))
      && (next.Patch? <==> Named(op) || (MethodFor(current).Patch? && !Blanked(op)))
  {
    hide Blank, Format;
    EmptyIsBlank();
  }

  /** Operation k is a sync of the link row with this id. */
  predicate OnRow(ops: seq<Op>, k: nat, id: nat) {
    && k < |ops| && ops[k].SyncLink? && (ops[k].cert, ops[k].target) in Run(ops[..k]).links.rows
    && Run(ops[..k]).links.rows[(ops[k].cert, ops[k].target)].id == id
  }

  predicate AnsweredAt(ops: seq<Op>, k: nat, id: nat) {
    OnRow(ops, k, id) && Answered(ops[k])
  }

  predicate NamedAt(ops: seq<Op>, k: nat, id: nat) {
    OnRow(ops, k, id) && Named(ops[k])
  }

  predicate BlankedAt(ops: seq<Op>, k: nat, id: nat) {
    OnRow(ops, k, id) && Blanked(ops[k])
  }

  lemma RunStep(ops: seq<Op>, n: nat)
    requires n < |ops|
    ensures Run(ops[..n + 1]) == Apply(Run(ops[..n]), ops[n])
  {
    hide Apply;
    assert ops[..n + 1][..n] == ops[..n];
  }

  /** After the first n operations the row holds a usable id, as far as the answers tell. */
  predicate HoldsId(ops: seq<Op>, n: nat, id: nat)
    requires n <= |ops|
  {
    n > 0 && (NamedAt(ops, n - 1, id) || (HoldsId(ops, n - 1, id) && !BlankedAt(ops, n - 1, id)))
  }

  /** Rows not inserted yet have no history. */
  lemma {:induction false} UnbornHoldsNothing(ops: seq<Op>, n: nat, id: nat)
    requires n <= |ops| && id >= Run(ops[..n]).links.nextId
    ensures !HoldsId(ops, n, id)
  {
    hide Run, Named, Blanked, Apply;
    if n > 0 {
      RunSound(ops[..n - 1]);
      NextIdGrows(ops[..n], n - 1);
      assert ops[..n][..n - 1] == ops[..n - 1];
      UnbornHoldsNothing(ops, n - 1, id);
    }
  }

  /** What the answers tell is what the table says. */
  lemma {:induction false} HoldsIdMeaning(ops: seq<Op>, n: nat, pair: Pair, id: nat)
    requires n <= |ops| && Lives(Run(ops[..n]), pair, id)
    ensures !Blank(Run(ops[..n]).links.rows[pair].kongCertificateId) <==> HoldsId(ops, n, id)
  {
    hide Run, Named, Blanked, Apply, Blank;
    NothingYet();
    assert ops[..0] == [];
    if n > 0 {
      RunStep(ops, n - 1);
      RunSound(ops[..n - 1]);
      var s, op := Run(ops[..n - 1]), ops[n - 1];
      if id >= s.links.nextId {
        UnbornHoldsNothing(ops, n - 1, id);
        NewRowIsBlank(s, op, pair, id);
      } else {
        IdStays(s, op, pair, id);
        HoldsIdMeaning(ops, n - 1, pair, id);
        OneSync(s, op, pair, id);
      }
    }
  }

  lemma NothingYet()
    ensures Run([]) == LinkState(Links(map[], 1), [])
  {
  }

  lemma NewRowIsBlank(s: LinkState, op: Op, pair: Pair, id: nat)
    requires Sound(s) && Lives(Apply(s, op), pair, id) && id >= s.links.nextId
    ensures Blank(Apply(s, op).links.rows[pair].kongCertificateId)
    ensures forall p :: p in s.links.rows ==> s.links.rows[p].id != id
  {
    hide SyncedLink, ClientResult, Blank, Creates, Relinked;
    EmptyIsBlank();
    match op {
      case SetTargets(cert, targets) => RelinkedMeaning(s.links, cert, targets);
      case SyncLink(cert, target, readError, reply, now, stored) =>
        if (cert, target) in s.links.rows {
          SyncedLinkFacts(s.links.rows[(cert, target)], readError, reply, now);
        }
      case _ =>
    }
  }

  lemma OneSync(s: LinkState, op: Op, pair: Pair, id: nat)
    requires Sound(s) && Lives(s, pair, id) && Lives(Apply(s, op), pair, id)
    requires (op.SyncLink? && pair == (op.cert, op.target)) || Apply(s, op).links.rows[pair] == s.links.rows[pair]
    ensures var here := op.SyncLink? && (op.cert, op.target) in s.links.rows && s.links.rows[(op.cert, op.target)].id ==
      id;
      !Blank(Apply(s, op).links.rows[pair].kongCertificateId) <==>
      (here && Named(op)) || (!Blank(s.links.rows[pair].kongCertificateId) && !(here && Blanked(op)))
  {
    hide SyncedLink, ClientResult, Blank, Creates, Relinked, Named, Blanked;
    if op.SyncLink? && pair == (op.cert, op.target) {
      NextRequestUpdatesIff(s.links.rows[pair], op);
    }
  }

  /** Operation i stored a usable id for the row and none up to n replaced it by a blank one. */
  ghost predicate NameKept(ops: seq<Op>, i: nat, n: nat, id: nat) {
    i < n && NamedAt(ops, i, id) && forall b: nat :: i < b < n ==> !BlankedAt(ops, b, id)
  }

  /**
   * In every run a request for a link is an update exactly when some earlier sync of the same row stored a
   * usable id and no sync after that one stored a blank id.
   */
  lemma RequestUpdatesIff(ops: seq<Op>, k: nat, id: nat)
    requires OnRow(ops, k, id)
    ensures MethodFor(Run(ops[..k]).links.rows[(ops[k].cert, ops[k].target)].kongCertificateId).Patch?
       <==> exists i: nat :: NameKept(ops, i, k, id)
  {
    hide Run, Blank, NameKept;
    HoldsIdMeaning(ops, k, (ops[k].cert, ops[k].target), id);
    HoldsIdIff(ops, k, id);
  }

  lemma {:induction false} HoldsIdIff(ops: seq<Op>, n: nat, id: nat)
    requires n <= |ops|
    ensures HoldsId(ops, n, id) <==> exists i: nat :: NameKept(ops, i, n, id)
  {
    hide NamedAt, BlankedAt;
    if n > 0 {
      var m := n - 1;
      HoldsIdIff(ops, m, id);
      NotBoth(ops, m, id);
      assert NameKept(ops, m, n, id) <==> NamedAt(ops, m, id);
      assert forall i: nat :: i < m ==>
        (NameKept(ops, i, n, id) <==> NameKept(ops, i, m, id) && !BlankedAt(ops, m, id));
    }
  }

  lemma NotBoth(ops: seq<Op>, k: nat, id: nat)
    ensures !(NamedAt(ops, k, id) && BlankedAt(ops, k, id))
    ensures NamedAt(ops, k, id) || BlankedAt(ops, k, id) ==> AnsweredAt(ops, k, id)
  {
    hide Blank, Run;
  }

  // ---------- how often Kong creates a certificate for a link ----------

  /** Kong answers a create for the row at operation k. */
  predicate CreatesAt(ops: seq<Op>, k: nat, id: nat)
    requires k <= |ops|
  {
    AnsweredAt(ops, k, id) && !HoldsId(ops, k, id)
  }

  ghost function CreateCount(ops: seq<Op>, n: nat, id: nat): nat
    requires n <= |ops|
  {
    if n == 0 then 0 else CreateCount(ops, n - 1, id) + if CreatesAt(ops, n - 1, id) then 1 else 0
  }

  lemma {:induction false} CreatesCounted(ops: seq<Op>, n: nat, id: nat)
    requires n <= |ops|
    ensures multiset(Run(ops[..n]).creates)[id] == CreateCount(ops, n, id)
  {
    hide Run, HoldsId, Apply, Answered, Blank;
    if n == 0 {
      assert ops[..0] == [] && Run([]).creates == [] by { NothingYet(); }
    } else {
      CreatesCounted(ops, n - 1, id);
      RunStep(ops, n - 1);
      var s, op := Run(ops[..n - 1]), ops[n - 1];
      Recorded(s, op, id);
      if OnRow(ops, n - 1, id) {
        HoldsIdMeaning(ops, n - 1, (op.cert, op.target), id);
      }
    }
  }

  lemma Recorded(s: LinkState, op: Op, id: nat)
    ensures var here := op.SyncLink? && (op.cert, op.target) in s.links.rows && s.links.rows[(op.cert, op.target)].id ==
      id;
      multiset(Apply(s, op).creates)[id] == multiset(s.creates)[id]
      + if here && Answered(op) && Blank(s.links.rows[(op.cert, op.target)].kongCertificateId) then 1 else 0
  {
    hide SyncedLink, Blank, Relinked, Answered;
    if op.SyncLink? && (op.cert, op.target) in s.links.rows {
      var link := s.links.rows[(op.cert, op.target)];
      assert multiset(s.creates + [link.id]) == multiset(s.creates) + multiset{link.id};
    }
  }

  ghost predicate AnsweredBefore(ops: seq<Op>, n: nat, id: nat) {
    exists i: nat :: i < n && AnsweredAt(ops, i, id)
  }

  /** From operation i up to n the row is left without a usable id although Kong has created a certificate. */
  ghost predicate Nameless(ops: seq<Op>, i: nat, n: nat, id: nat) {
    && i < n && AnsweredAt(ops, i, id) && (BlankedAt(ops, i, id) || !AnsweredBefore(ops, i, id))
    && forall k: nat :: i <= k < n ==> !NamedAt(ops, k, id)
  }

  lemma {:induction false} NamelessIff(ops: seq<Op>, n: nat, id: nat)
    requires n <= |ops|
    ensures (exists i: nat :: Nameless(ops, i, n, id)) <==> AnsweredBefore(ops, n, id) && !HoldsId(ops, n, id)
    ensures HoldsId(ops, n, id) ==> AnsweredBefore(ops, n, id)
  {
    hide AnsweredAt, NamedAt, BlankedAt;
    if n > 0 {
      var m := n - 1;
      NamelessIff(ops, m, id);
      NotBoth(ops, m, id);
      assert AnsweredBefore(ops, n, id) <==> AnsweredBefore(ops, m, id) || AnsweredAt(ops, m, id);
      assert Nameless(ops, m, n, id) <==>
        AnsweredAt(ops, m, id) && !NamedAt(ops, m, id) && (BlankedAt(ops, m, id) || !AnsweredBefore(ops, m, id));
      assert forall i: nat :: i < m ==> (Nameless(ops, i, n, id) <==> Nameless(ops, i, m, id) && !NamedAt(ops, m, id));
    }
  }

  lemma {:induction false} CountIff(ops: seq<Op>, n: nat, id: nat)
    requires n <= |ops|
    ensures CreateCount(ops, n, id) >= 1 <==> AnsweredBefore(ops, n, id)
    ensures CreateCount(ops, n, id) >= 2 <==>
      exists i: nat, j: nat :: j < n && Nameless(ops, i, j, id) && AnsweredAt(ops, j, id)
  {
    hide AnsweredAt, Nameless, HoldsId;
    if n > 0 {
      var m := n - 1;
      CountIff(ops, m, id);
      NamelessIff(ops, m, id);
      assert AnsweredBefore(ops, n, id) <==> AnsweredBefore(ops, m, id) || AnsweredAt(ops, m, id);
    }
  }

  /**
   * Kong creates more than one certificate for a link row exactly when its first answer, or an answer that
   * stored a blank name, is followed by another answer with no usable id stored in between.
   */
  lemma CreatedTwiceIff(ops: seq<Op>, id: nat)
    ensures multiset(Run(ops).creates)[id] >= 2 <==>
      exists i: nat, j: nat :: Nameless(ops, i, j, id) && AnsweredAt(ops, j, id)
  {
    hide Run, Nameless, CreateCount, AnsweredAt;
    assert ops[..|ops|] == ops;
    CreatesCounted(ops, |ops|, id);
    CountIff(ops, |ops|, id);
    forall j: nat | AnsweredAt(ops, j, id)
      ensures j < |ops|
    {
      Bounded(ops, j, id);
    }
  }

  lemma Bounded(ops: seq<Op>, k: nat, id: nat)
    requires AnsweredAt(ops, k, id)
    ensures k < |ops|
  {
    hide Run;
  }

  /** So Kong creates at most one when it names the certificate in its first answer and in no answer by white space. */
  lemma AtMostOneCreate(ops: seq<Op>, id: nat)
    requires forall i: nat :: AnsweredAt(ops, i, id) && !AnsweredBefore(ops, i, id) ==> NamedAt(ops, i, id)
    requires forall i: nat :: !BlankedAt(ops, i, id)
    ensures multiset(Run(ops).creates)[id] <= 1
  {
    hide Run, AnsweredAt, NamedAt, BlankedAt, AnsweredBefore;
    CreatedTwiceIff(ops, id);
    assert forall i: nat, j: nat :: !Nameless(ops, i, j, id);
  }

  // ---------- second creates that happen ----------

  function SyncOf(reply: Reply, stored: bool): Op {
    SyncLink(1, 1, None, reply, 0, stored)
  }

  /** The state after one target was linked to certificate 1. */
  lemma LinkOne()
    ensures Run([SetTargets(1, [1])]).links.rows == map[(1, 1) := Link(1, "", NotSynced, None, "")]
    ensures Run([SetTargets(1, [1])]).creates == []
  {
    var empty := Links(map[], 1);
    assert KeepOnly(empty, 1, [1]) == empty;
    assert [1][..0] == [];
    assert InsertAll(empty, 1, [1]) == InsertOrIgnore(InsertAll(empty, 1, []), 1, 1);
    assert [SetTargets(1, [1])][..0] == [];
  }

  lemma OneMoreSync(ops: seq<Op>, reply: Reply, stored: bool)
    requires (1, 1) in Run(ops).links.rows
    ensures var link, s' := Run(ops).links.rows[(1, 1)], Run(ops + [SyncOf(reply, stored)]);
      && (1, 1) in s'.links.rows && s'.links.rows[(1, 1)].id == link.id
      && s'.links.rows[(1, 1)].kongCertificateId ==
        (if stored && ClientResult(link.kongCertificateId, reply).Ok?
         then ClientResult(link.kongCertificateId, reply).value
         else link.kongCertificateId)
      && s'.creates == Run(ops).creates + if Blank(link.kongCertificateId) && Accepted(reply) then [link.id] else []
  {
    hide Blank, Format;
    assert (ops + [SyncOf(reply, stored)])[..|ops|] == ops;
  }

  lemma Blanks()
    ensures Blank("") && Blank(" ") && !Blank("k")
  {
    assert TrimLeft(" ") == TrimLeft("");
  }

  /** Both requests of a link that is left without a usable id are creates, and those that Kong accepts count. */
  lemma TwoAnswers(first: Reply, stored: bool, second: Reply)
    requires Accepted(second)
    requires !stored || ClientResult("", first).Err? || Blank(ClientResult("", first).value)
    ensures Run([SetTargets(1, [1]), SyncOf(first, stored), SyncOf(second, true)]).creates ==
      if Accepted(first) then [1, 1] else [1]
  {
    hide Run, Blank, ClientResult;
    Blanks();
    LinkOne();
    var ops := [SetTargets(1, [1])];
    OneMoreSync(ops, first, stored);
    OneMoreSync(ops + [SyncOf(first, stored)], second, true);
    assert ops + [SyncOf(first, stored)] + [SyncOf(second, true)] ==
      [SetTargets(1, [1]), SyncOf(first, stored), SyncOf(second, true)];
  }

  /** An answer without an id. */
  lemma NoIdCreatesTwice(answer: Reply)
    requires answer.Empty? || answer.Garbled? || answer == Body("")
    ensures Run([SetTargets(1, [1]), SyncOf(answer, true), SyncOf(Body("k"), true)]).creates == [1, 1]
  {
    Blanks();
    TwoAnswers(answer, true, Body("k"));
  }

  /** No answer or an error status is no create. */
  lemma RefusalIsNoCreate(answer: Reply)
    requires answer.Unreachable? || answer.Refused?
    ensures Run([SetTargets(1, [1]), SyncOf(answer, true), SyncOf(Body("k"), true)]).creates == [1]
  {
    Blanks();
    TwoAnswers(answer, true, Body("k"));
  }

  /** An id of white space. */
  lemma BlankIdCreatesTwice()
    ensures Run([SetTargets(1, [1]), SyncOf(Body(" "), true), SyncOf(Body("k"), true)]).creates == [1, 1]
  {
    Blanks();
    TwoAnswers(Body(" "), true, Body("k"));
  }

  /** A link row that could not be written after the create. */
  lemma LostWriteCreatesTwice()
    ensures Run([SetTargets(1, [1]), SyncOf(Body("k"), false), SyncOf(Body("k"), true)]).creates == [1, 1]
  {
    Blanks();
    TwoAnswers(Body("k"), false, Body("k"));
  }

  /** An update answered with an id of white space. */
  lemma LaterBlankIdCreatesTwice()
    ensures var syncs := [SyncOf(Body("k"), true), SyncOf(Body(" "), true), SyncOf(Body("m"), true)];
      Run([SetTargets(1, [1])] + syncs).creates == [1, 1]
  {
    hide Run, Blank;
    Blanks();
    LinkOne();
    var ops := [SetTargets(1, [1])];
    OneMoreSync(ops, Body("k"), true);
    OneMoreSync(ops + [SyncOf(Body("k"), true)], Body(" "), true);
    OneMoreSync(ops + [SyncOf(Body("k"), true)] + [SyncOf(Body(" "), true)], Body("m"), true);
    assert ops + [SyncOf(Body("k"), true)] + [SyncOf(Body(" "), true)] + [SyncOf(Body("m"), true)] ==
      ops + [SyncOf(Body("k"), true), SyncOf(Body(" "), true), SyncOf(Body("m"), true)];
  }

  /** Deleting a certificate or a target removes exactly its links. */
  lemma DropsOwn(s: LinkState, op: Op)
    requires op.DropCertificate? || op.DropTarget?
    ensures forall pair: Pair :: pair in Apply(s, op).links.rows <==>
      pair in s.links.rows && (if op.DropCertificate? then pair.0 != op.cert else pair.1 != op.target)
    ensures forall pair :: pair in Apply(s, op).links.rows ==> Apply(s, op).links.rows[pair] == s.links.rows[pair]
    ensures Apply(s, op).creates == s.creates && Apply(s, op).links.nextId == s.links.nextId
    ensures op.DropCertificate? ==> Apply(s, op).links.rows == KeepOnly(s.links, op.cert, []).rows
  {
  }
}
