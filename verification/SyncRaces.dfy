/**
 * Syncs that overlap with each other and with changes of the link table. A sync reads the link row, asks Kong, and
 * writes the row back in a later statement; nothing keeps other calls out in between.
 */
module SyncRaces {
  import opened Wrappers
  import opened Text
  import opened TimeText
  import opened Domain
  import opened Links
  import opened Databases
  import opened LinkRuns

  /** A sync in progress: the pair it is about, and the row it has read. */
  datatype Reading = Reading(pair: Pair, link: Link)

  /** The link table, the syncs in progress, and the rows read by the creates that Kong answered with success. */
  datatype Board = Board(links: Links, open: map<nat, Reading>, creates: seq<nat>)

  /** An operation on the table that is no sync. */
  type Change = op: Op | !op.SyncLink? witness SetTargets(0, [])

  /**
   * A change of the table, or a statement of sync k: reading its row, or writing it back after Kong was asked. What
   * is asked depends on the row read alone, so the request is taken together with the write. `stored`: the write
   * works, foreign keys included.
   */
  datatype Event =
    | Whole(op: Change)
    | List(sync: nat, pair: Pair)
    | Store(sync: nat, readError: Option<string>, reply: Reply, now: int, stored: bool)

  /** The sync as the sequential operation of the same outcome. */
  function AsOp(pair: Pair, e: Event): Op
    requires e.Store?
  {
    SyncLink(pair.0, pair.1, e.readError, e.reply, e.now, e.stored)
  }

  /** INSERT ... ON CONFLICT DO UPDATE: the row of the pair is replaced under its id, or inserted again. */
  function Write(t: Links, pair: Pair, link: Link): Links {
    if pair in t.rows then t.(rows := t.rows[pair := link.(id := t.rows[pair].id)])
    else Links(t.rows[pair := link.(id := t.nextId)], t.nextId + 1)
  }

  /** The repository's upsert, for any mapping that stands for the link. */
  lemma WriteIsUpsert(t: Links, m: Mapping, link: Link)
    requires LinkFrom(link.id, m) == link
    ensures UpsertLink(t, m) == Write(t, (m.cert, m.target), link)
  {
    hide Format;
  }

  function Do(b: Board, e: Event): Board {
    match e
    case Whole(op) => b.(links := Apply(LinkState(b.links, []), op).links)
    case List(k, pair) =>
      if pair in b.links.rows then b.(open := b.open[k := Reading(pair, b.links.rows[pair])])
      else b.(open := b.open - {k})
    case Store(k, readError, reply, now, stored) =>
      if k !in b.open then b
      else
        var (pair, link) := (b.open[k].pair, b.open[k].link);
        Board(
          if stored then Write(b.links, pair, SyncedLink(link, readError, reply, now)) else b.links,
          b.open - {k},
          if Creates(link, AsOp(pair, e)) then b.creates + [link.id] else b.creates)
  }

  /** The board after the first n events. */
  function After(events: seq<Event>, n: nat): Board
    requires n <= |events|
  {
    if n == 0 then Board(Links(map[], 1), map[], []) else Do(After(events, n - 1), events[n - 1])
  }

  // ---------- what every interleaving keeps ----------

  ghost predicate Orderly(b: Board) {
    && Sound(LinkState(b.links, []))
    && (forall k :: k in b.open ==> b.open[k].link.id < b.links.nextId)
  }

  lemma DoKeepsOrder(b: Board, e: Event)
    requires Orderly(b)
    ensures Orderly(Do(b, e)) && b.links.nextId <= Do(b, e).links.nextId
  {
    hide SyncedLink, ClientResult, Blank, Creates, Relinked;
    match e {
      case Whole(op) =>
        ApplySound(LinkState(b.links, []), op);
        ChangeGrows(b.links, op);
      case List(k, pair) =>
      case Store(k, readError, reply, now, stored) =>
        if k in b.open {
          SyncedLinkFacts(b.open[k].link, readError, reply, now);
        }
    }
  }

  lemma ChangeGrows(t: Links, op: Change)
    ensures t.nextId <= Apply(LinkState(t, []), op).links.nextId
  {
    if op.SetTargets? {
      InsertAllMeaning(KeepOnly(t, op.cert, op.targets), op.cert, op.targets);
    }
  }

  /** In every interleaving a link that says synced has a Kong id, no error and a time, and row ids are unique. */
  lemma {:induction false} AlwaysOrderly(events: seq<Event>, n: nat)
    requires n <= |events|
    ensures Orderly(After(events, n))
  {
    hide Do, Orderly;
    if n == 0 {
      EmptyOrderly(events);
    } else {
      AlwaysOrderly(events, n - 1);
      DoKeepsOrder(After(events, n - 1), events[n - 1]);
    }
  }

  lemma EmptyOrderly(events: seq<Event>)
    ensures Orderly(After(events, 0))
  {
  }

  // ---------- what one write can undo ----------

  /** The event is the write of a sync in progress. */
  predicate Writes(b: Board, e: Event) {
    e.Store? && e.sync in b.open
  }

  /** A write takes the Kong id out of a row exactly when the sync had read none and has not been given one. */
  lemma WriteEmptiesIff(b: Board, e: Event)
    requires Writes(b, e) && b.open[e.sync].pair in b.links.rows
    requires b.links.rows[b.open[e.sync].pair].kongCertificateId != ""
    ensures var r := b.open[e.sync];
      Do(b, e).links.rows[r.pair].kongCertificateId == "" <==>
      e.stored && r.link.kongCertificateId == "" && (e.readError.Some? || ClientResult("", e.reply).Err?)
  {
    hide Blank, Format, Creates;
    EmptyIsBlank();
  }

  /** A write adds a row exactly when the pair has been unlinked since it was read. */
  lemma WriteAddsRowIff(b: Board, e: Event)
    requires Writes(b, e)
    ensures var pair := b.open[e.sync].pair;
      && Do(b, e).links.rows.Keys == b.links.rows.Keys + (if e.stored then {pair} else {})
      && (Do(b, e).links.rows.Keys != b.links.rows.Keys <==> e.stored && pair !in b.links.rows)
  {
    hide SyncedLink, Creates;
  }

  // ---------- undisturbed syncs are sequential ----------

  /** The event removes or rewrites the row of the pair that sync k is about. */
  predicate Touches(b: Board, e: Event, k: nat) {
    k in b.open &&
    var pair := b.open[k].pair;
    match e
    case Whole(op) =>
      || (op.SetTargets? && op.cert == pair.0 && pair.1 !in op.targets)
      || (op.DropCertificate? && op.cert == pair.0)
      || (op.DropTarget? && op.target == pair.1)
    case List(_, _) => false
    case Store(m, _, _, _, stored) => m != k && m in b.open && b.open[m].pair == pair && stored
  }

  predicate ListedAt(events: seq<Event>, i: nat, k: nat) {
    i < |events| && events[i].List? && events[i].sync == k
  }

  predicate TouchedAt(events: seq<Event>, j: nat, k: nat) {
    j < |events| && Touches(After(events, j), events[j], k)
  }

  /** After n events the row that sync k has read may be out of date. */
  ghost predicate Stale(events: seq<Event>, n: nat, k: nat) {
    exists j: nat :: j < n && TouchedAt(events, j, k) && forall i: nat :: j < i < n ==> !ListedAt(events, i, k)
  }

  lemma {:induction false} FreshReading(events: seq<Event>, n: nat, k: nat)
    requires n <= |events| && k in After(events, n).open && !Stale(events, n, k)
    ensures var b := After(events, n); b.open[k].pair in b.links.rows && b.links.rows[b.open[k].pair] == b.open[k].link
  {
    hide Do, Touches;
    if n > 0 {
      var m := n - 1;
      var b, e := After(events, m), events[m];
      StillOpen(b, e, k);
      if !ListedAt(events, m, k) {
        assert !TouchedAt(events, m, k);
        if Stale(events, m, k) {
          var j: nat :| j < m && TouchedAt(events, j, k) && forall i: nat :: j < i < m ==> !ListedAt(events, i, k);
          assert forall i: nat :: j < i < n ==> !ListedAt(events, i, k);
        }
        FreshReading(events, m, k);
        UntouchedStays(b, e, k);
      }
    }
  }

  lemma StillOpen(b: Board, e: Event, k: nat)
    requires k in Do(b, e).open
    ensures e.List? && e.sync == k ==>
      Do(b, e).links == b.links && e.pair in b.links.rows && Do(b, e).open[k] == Reading(e.pair, b.links.rows[e.pair])
    ensures !(e.List? && e.sync == k) ==> k in b.open && Do(b, e).open[k] == b.open[k] && !(e.Store? && e.sync == k)
  {
    hide SyncedLink, Creates, Apply;
  }

  lemma UntouchedStays(b: Board, e: Event, k: nat)
    requires k in b.open && !Touches(b, e, k) && !(e.Store? && e.sync == k)
    requires b.open[k].pair in b.links.rows
    ensures var pair := b.open[k].pair; pair in Do(b, e).links.rows && Do(b, e).links.rows[pair] == b.links.rows[pair]
  {
    hide SyncedLink, Creates, Relinked;
    if e.Whole? && e.op.SetTargets? {
      RelinkedMeaning(b.links, e.op.cert, e.op.targets);
    }
  }

  /** The sequential operations of an interleaving, each sync at the place of its write. */
  function OpsOf(events: seq<Event>, n: nat): seq<Op>
    requires n <= |events|
  {
    if n == 0 then []
    else
      var b, e := After(events, n - 1), events[n - 1];
      OpsOf(events, n - 1)
      + if e.Whole? then [e.op] else if Writes(b, e) then [AsOp(b.open[e.sync].pair, e)] else []
  }

  /** No sync writes back a row that may be out of date. */
  ghost predicate Undisturbed(events: seq<Event>) {
    forall m: nat :: m < |events| && Writes(After(events, m), events[m]) ==> !Stale(events, m, events[m].sync)
  }

  /**
   * An interleaving in which no relink, delete or other sync touches a row between the read and the write of a sync
   * of it has the table and the creates of the sequential run, so the theorems about those runs hold of it.
   */
  lemma {:induction false} UndisturbedIsSequential(events: seq<Event>, n: nat)
    requires n <= |events| && Undisturbed(events)
    ensures Run(OpsOf(events, n)) == LinkState(After(events, n).links, After(events, n).creates)
  {
    hide Do, Run, Stale, Writes;
    if n == 0 {
      NothingYet();
    } else {
      var b, e := After(events, n - 1), events[n - 1];
      UndisturbedIsSequential(events, n - 1);
      if Writes(b, e) {
        IsOpen(b, e);
        FreshReading(events, n - 1, e.sync);
      }
      OneOp(OpsOf(events, n - 1), b, e);
    }
  }

  lemma IsOpen(b: Board, e: Event)
    requires Writes(b, e)
    ensures e.Store? && e.sync in b.open
  {
  }

  lemma OneOp(ops: seq<Op>, b: Board, e: Event)
    requires Run(ops) == LinkState(b.links, b.creates)
    requires Writes(b, e) ==>
      var r := b.open[e.sync]; r.pair in b.links.rows && b.links.rows[r.pair] == r.link
    ensures var last := if e.Whole? then [e.op] else if Writes(b, e) then [AsOp(b.open[e.sync].pair, e)] else [];
      Run(ops + last) == LinkState(Do(b, e).links, Do(b, e).creates)
  {
    hide SyncedLink, ClientResult, Blank, Creates, Relinked;
    if e.Whole? {
      assert (ops + [e.op])[..|ops|] == ops;
    } else if Writes(b, e) {
      var r := b.open[e.sync];
      assert (ops + [AsOp(r.pair, e)])[..|ops|] == ops;
      SyncedLinkFacts(r.link, e.readError, e.reply, e.now);
      assert e.stored || b.links.rows[r.pair := b.links.rows[r.pair]] == b.links.rows;
    } else {
      assert ops + [] == ops;
    }
  }

  // ---------- creates and updates in every interleaving ----------

  /** The row that the event at n writes: the row of the pair then, or the next one. */
  function WrittenId(b: Board, pair: Pair): nat {
    if pair in b.links.rows then b.links.rows[pair].id else b.links.nextId
  }

  /** The event at n is a stored write of the row with this id. */
  predicate WritesRow(events: seq<Event>, n: nat, id: nat) {
    && n < |events| && Writes(After(events, n), events[n]) && events[n].stored
    && WrittenId(After(events, n), After(events, n).open[events[n].sync].pair) == id
  }

  /**
   * After n events the row holds a usable id, as far as the answers and the order of the statements tell: what the
   * last write of the row was named, or else what that sync had read.
   */
  predicate Knows(events: seq<Event>, n: nat, id: nat)
    requires n <= |events|
    decreases n, 1
  {
    n > 0 &&
    if WritesRow(events, n - 1, id) then WritesName(events, n - 1) else Knows(events, n - 1, id)
  }

  predicate WritesName(events: seq<Event>, n: nat)
    requires n < |events| && Writes(After(events, n), events[n])
    decreases n, 1
  {
    var op := AsOp(After(events, n).open[events[n].sync].pair, events[n]);
    Named(op) || (ReadName(events, n, events[n].sync) && !Blanked(op))
  }

  /** Sync k, in progress after n events, has read a usable id. */
  predicate ReadName(events: seq<Event>, n: nat, k: nat)
    requires n <= |events|
    decreases n, 0
  {
    n > 0 &&
    if ListedAt(events, n - 1, k) then
      events[n - 1].pair in After(events, n - 1).links.rows
      && Knows(events, n - 1, After(events, n - 1).links.rows[events[n - 1].pair].id)
    else ReadName(events, n - 1, k)
  }

  /** What the answers tell is what the table and the syncs in progress hold. */
  ghost predicate Told(events: seq<Event>, n: nat)
    requires n <= |events|
  {
    RowsTold(events, n) && SyncsTold(events, n) && NoneAbove(events, n)
  }

  ghost predicate RowsTold(events: seq<Event>, n: nat)
    requires n <= |events|
  {
    forall pair :: pair in After(events, n).links.rows ==> RowTold(events, n, pair)
  }

  ghost predicate SyncsTold(events: seq<Event>, n: nat)
    requires n <= |events|
  {
    forall k :: k in After(events, n).open ==> SyncTold(events, n, k)
  }

  /** Rows that were never inserted have no history. */
  ghost predicate NoneAbove(events: seq<Event>, n: nat)
    requires n <= |events|
  {
    forall id: nat :: id >= After(events, n).links.nextId ==> !Knows(events, n, id)
  }

  predicate RowTold(events: seq<Event>, n: nat, pair: Pair)
    requires n <= |events| && pair in After(events, n).links.rows
  {
    var link := After(events, n).links.rows[pair];
    !Blank(link.kongCertificateId) <==> Knows(events, n, link.id)
  }

  predicate SyncTold(events: seq<Event>, n: nat, k: nat)
    requires n <= |events| && k in After(events, n).open
  {
    !Blank(After(events, n).open[k].link.kongCertificateId) <==> ReadName(events, n, k)
  }

  lemma {:induction false} AlwaysTold(events: seq<Event>, n: nat)
    requires n <= |events|
    ensures Told(events, n)
  {
    hide Do, Orderly, RowsTold, SyncsTold, NoneAbove;
    if n == 0 {
      NothingTold(events);
    } else {
      AlwaysTold(events, n - 1);
      AlwaysOrderly(events, n - 1);
      OpenTold(events, n - 1);
      if Writes(After(events, n - 1), events[n - 1]) {
        WriteTold(events, n - 1);
      } else if events[n - 1].Whole? {
        ChangeTold(events, n - 1);
      } else {
        ListTold(events, n - 1);
      }
    }
  }

  lemma NothingTold(events: seq<Event>)
    ensures Told(events, 0)
  {
  }

  lemma OpenTold(events: seq<Event>, n: nat)
    requires n < |events| && Told(events, n)
    ensures SyncsTold(events, n + 1)
  {
    hide Do, Knows, Blank;
    var m := n + 1;
    forall k | k in After(events, m).open
      ensures SyncTold(events, m, k)
    {
      StillOpen(After(events, n), events[n], k);
      if ListedAt(events, n, k) {
        assert RowTold(events, n, events[n].pair);
      } else {
        assert SyncTold(events, n, k);
      }
    }
  }

  /** The table after an event that writes no link row. */
  lemma NotWritten(events: seq<Event>, n: nat, id: nat)
    requires n < |events| && !WritesRow(events, n, id)
    ensures Knows(events, n + 1, id) == Knows(events, n, id)
  {
    hide WritesRow, Do;
  }

  lemma ListTold(events: seq<Event>, n: nat)
    requires n < |events| && Told(events, n) && !Writes(After(events, n), events[n]) && !events[n].Whole?
    ensures RowsTold(events, n + 1) && NoneAbove(events, n + 1)
  {
    hide Knows, Blank, SyncTold;
    var m := n + 1;
    forall id: nat
      ensures Knows(events, m, id) == Knows(events, n, id)
    {
      NotWritten(events, n, id);
    }
    assert After(events, m).links == After(events, n).links;
    forall pair | pair in After(events, m).links.rows
      ensures RowTold(events, m, pair)
    {
      assert RowTold(events, n, pair);
    }
  }

  lemma ChangeTold(events: seq<Event>, n: nat)
    requires n < |events| && Told(events, n) && Orderly(After(events, n)) && events[n].Whole?
    ensures RowsTold(events, n + 1) && NoneAbove(events, n + 1)
  {
    hide Knows, Blank, SyncTold, Apply, Sound;
    var t, op := After(events, n).links, events[n].op;
    var m := n + 1;
    forall id: nat
      ensures Knows(events, m, id) == Knows(events, n, id)
    {
      NotWritten(events, n, id);
    }
    ChangeGrows(t, op);
    forall pair | pair in After(events, m).links.rows
      ensures RowTold(events, m, pair)
    {
      ChangedRow(t, op, pair);
      if pair in t.rows {
        assert RowTold(events, n, pair);
      }
    }
  }

  lemma ChangedRow(t: Links, op: Change, pair: Pair)
    requires pair in Apply(LinkState(t, []), op).links.rows
    ensures var t' := Apply(LinkState(t, []), op).links;
      if pair in t.rows then t'.rows[pair] == t.rows[pair]
      else t'.rows[pair].id >= t.nextId && Blank(t'.rows[pair].kongCertificateId)
  {
    hide Blank, Relinked;
    EmptyIsBlank();
    if op.SetTargets? {
      RelinkedMeaning(t, op.cert, op.targets);
    }
  }

  lemma WriteTold(events: seq<Event>, n: nat)
    requires n < |events| && Told(events, n) && Orderly(After(events, n)) && Writes(After(events, n), events[n])
    ensures RowsTold(events, n + 1) && NoneAbove(events, n + 1)
  {
    hide Knows, Blank, Do, Told, Orderly;
    var b, e := After(events, n), events[n];
    var pair := b.open[e.sync].pair;
    WrittenTable(b, e);
    WrittenKnown(events, n);
    var m := n + 1;
    forall id: nat | !e.stored || id != WrittenId(b, pair)
      ensures Knows(events, m, id) == Knows(events, n, id)
    {
      NotWritten(events, n, id);
    }
    forall p | p in After(events, m).links.rows && !(e.stored && p == pair)
      ensures RowTold(events, m, p)
    {
      assert RowTold(events, n, p) by {
        OneRowTold(events, n, p);
      }
    }
    forall id: nat | id >= After(events, m).links.nextId
      ensures !Knows(events, m, id)
    {
      UnknownAbove(events, n, id);
    }
  }

  lemma OneRowTold(events: seq<Event>, n: nat, pair: Pair)
    requires n <= |events| && Told(events, n) && pair in After(events, n).links.rows
    ensures RowTold(events, n, pair)
  {
    hide RowTold, Do, Knows;
  }

  lemma UnknownAbove(events: seq<Event>, n: nat, id: nat)
    requires n <= |events| && Told(events, n) && id >= After(events, n).links.nextId
    ensures !Knows(events, n, id)
  {
    hide RowTold, Do, Knows;
  }

  /** What a write does to the table: one row under its id, and all others as they were, under other ids. */
  lemma WrittenTable(b: Board, e: Event)
    requires Orderly(b) && Writes(b, e)
    ensures var r, t, t' := b.open[e.sync], b.links, Do(b, e).links;
      && t'.nextId >= t.nextId
      && (e.stored ==> r.pair in t'.rows && WrittenId(b, r.pair) < t'.nextId)
      && (e.stored ==>
        t'.rows[r.pair] == SyncedLink(r.link, e.readError, e.reply, e.now).(id := WrittenId(b, r.pair)))
      && (!e.stored ==> t' == t)
      && (forall p :: p in t'.rows && !(e.stored && p == r.pair) ==>
        p in t.rows && t'.rows[p] == t.rows[p] && (e.stored ==> t.rows[p].id != WrittenId(b, r.pair)))
  {
    hide SyncedLink, Creates;
  }

  lemma WrittenKnown(events: seq<Event>, n: nat)
    requires n < |events| && Told(events, n) && Orderly(After(events, n)) && Writes(After(events, n), events[n])
    ensures var pair := After(events, n).open[events[n].sync].pair;
      events[n].stored ==> pair in After(events, n + 1).links.rows && RowTold(events, n + 1, pair)
  {
    hide Blank, Do, Named, Blanked, RowTold, Orderly;
    var b, e := After(events, n), events[n];
    var r := b.open[e.sync];
    WrittenTable(b, e);
    assert SyncTold(events, n, e.sync);
    NextRequestUpdatesIff(r.link, AsOp(r.pair, e));
    if e.stored {
      assert WritesRow(events, n, WrittenId(b, r.pair));
      assert Knows(events, n + 1, WrittenId(b, r.pair)) == WritesName(events, n);
      RowToldMeans(events, n + 1, r.pair);
    }
  }

  lemma RowToldMeans(events: seq<Event>, n: nat, pair: Pair)
    requires n <= |events| && pair in After(events, n).links.rows
    ensures var link := After(events, n).links.rows[pair];
      RowTold(events, n, pair) <==> (!Blank(link.kongCertificateId) <==> Knows(events, n, link.id))
  {
    hide Do, Knows, Blank;
  }

  /**
   * In every interleaving the request of a sync is an update exactly when the sync had read a usable id: when the
   * last write of that row before the read was named by Kong, or was not blanked and rested on such a read itself.
   */
  lemma RequestUpdatesIff(events: seq<Event>, n: nat)
    requires n < |events| && Writes(After(events, n), events[n])
    ensures MethodFor(After(events, n).open[events[n].sync].link.kongCertificateId).Patch?
       <==> ReadName(events, n, events[n].sync)
  {
    hide Do, Knows, Blank, RowTold, ReadName;
    AlwaysTold(events, n);
    assert SyncTold(events, n, events[n].sync);
  }

  /** The event at n is a create that Kong answers with success, by a sync that read the row with this id. */
  predicate CreatesAt(events: seq<Event>, n: nat, id: nat) {
    && n < |events| && Writes(After(events, n), events[n]) && After(events, n).open[events[n].sync].link.id == id
    && Answered(AsOp(After(events, n).open[events[n].sync].pair, events[n])) && !ReadName(events, n, events[n].sync)
  }

  ghost function CreateCount(events: seq<Event>, n: nat, id: nat): nat {
    if n == 0 then 0 else CreateCount(events, n - 1, id) + if CreatesAt(events, n - 1, id) then 1 else 0
  }

  lemma {:induction false} CreatesCounted(events: seq<Event>, n: nat, id: nat)
    requires n <= |events|
    ensures multiset(After(events, n).creates)[id] == CreateCount(events, n, id)
  {
    hide ReadName, Answered, Do;
    if n > 0 {
      CreatesCounted(events, n - 1, id);
      var b, e := After(events, n - 1), events[n - 1];
      DoCreates(b, e, id);
      if Writes(b, e) {
        RequestUpdatesIff(events, n - 1);
      }
    }
  }

  lemma DoCreates(b: Board, e: Event, id: nat)
    ensures multiset(Do(b, e).creates)[id] == multiset(b.creates)[id]
      + if Writes(b, e) && b.open[e.sync].link.id == id && Creates(b.open[e.sync].link, AsOp(b.open[e.sync].pair, e))
        then 1 else 0
  {
    hide SyncedLink, Apply, Write, Creates;
    if Writes(b, e) {
      var row := b.open[e.sync].link.id;
      assert multiset(b.creates + [row]) == multiset(b.creates) + multiset{row};
    }
  }

  lemma {:induction false} CountIff(events: seq<Event>, n: nat, id: nat)
    ensures CreateCount(events, n, id) >= 1 <==> exists m: nat :: m < n && CreatesAt(events, m, id)
    ensures CreateCount(events, n, id) >= 2
       <==> exists l: nat, m: nat :: l < m < n && CreatesAt(events, l, id) && CreatesAt(events, m, id)
  {
    hide CreatesAt;
    if n > 0 {
      CountIff(events, n - 1, id);
    }
  }

  /**
   * In every interleaving Kong creates more than one certificate for a link row exactly when two syncs that read the
   * row without a usable id are both answered with success.
   */
  lemma CreatedTwiceIff(events: seq<Event>, id: nat)
    ensures multiset(After(events, |events|).creates)[id] >= 2
       <==> exists l: nat, m: nat :: l < m && CreatesAt(events, l, id) && CreatesAt(events, m, id)
  {
    hide After, CreateCount, Writes, Answered, ReadName;
    CreatesCounted(events, |events|, id);
    CountIff(events, |events|, id);
    assert forall m: nat :: CreatesAt(events, m, id) ==> m < |events|;
  }

  // ---------- three races that happen ----------

  function Answer(k: nat, reply: Reply): Event {
    Store(k, None, reply, 0, true)
  }

  /** One link was made, and two syncs have read it. */
  function TwoRead(): seq<Event> {
    [Whole(SetTargets(1, [1])), List(0, (1, 1)), List(1, (1, 1))]
  }

  lemma {:induction false} Prefix(first: seq<Event>, rest: seq<Event>, n: nat)
    requires n <= |first|
    ensures After(first + rest, n) == After(first, n)
  {
    hide Do;
    if n > 0 {
      Prefix(first, rest, n - 1);
    }
  }

  lemma OneMore(events: seq<Event>, e: Event)
    ensures After(events + [e], |events| + 1) == Do(After(events, |events|), e)
  {
    hide Do;
    Prefix(events, [e], |events|);
  }

  lemma FirstLink()
    ensures Apply(LinkState(Links(map[], 1), []), SetTargets(1, [1])).links
      == Links(map[(1, 1) := Link(1, "", NotSynced, None, "")], 2)
  {
    var empty := Links(map[], 1);
    assert KeepOnly(empty, 1, [1]) == empty;
    assert [1][..0] == [];
    assert InsertAll(empty, 1, [1]) == InsertOrIgnore(InsertAll(empty, 1, []), 1, 1);
  }

  lemma AfterTwoRead()
    ensures var b := After(TwoRead(), 3);
      && b.links == Links(map[(1, 1) := Link(1, "", NotSynced, None, "")], 2) && b.creates == []
      && b.open == map[0 := Reading((1, 1), b.links.rows[(1, 1)]), 1 := Reading((1, 1), b.links.rows[(1, 1)])]
  {
    hide Apply;
    FirstLink();
    assert After(TwoRead(), 1) == Do(After(TwoRead(), 0), TwoRead()[0]);
    assert After(TwoRead(), 2) == Do(After(TwoRead(), 1), TwoRead()[1]);
  }

  /** Two overlapping syncs, both answered with a usable id that is stored, create two certificates. */
  lemma OverlapCreatesTwice()
    ensures After(TwoRead() + [Answer(0, Body("k"))] + [Answer(1, Body("m"))], 5).creates == [1, 1]
  {
    hide After, SyncedLink, Blank;
    Blanks();
    AfterTwoRead();
    OneMore(TwoRead(), Answer(0, Body("k")));
    OneMore(TwoRead() + [Answer(0, Body("k"))], Answer(1, Body("m")));
  }

  /** A sync that read no id and is refused takes away the id that another has stored meanwhile. */
  lemma OverlapEmptiesId()
    ensures var before := After(TwoRead() + [Answer(1, Body("k"))], 4);
      var after := After(TwoRead() + [Answer(1, Body("k"))] + [Answer(0, Refused("409"))], 5);
      && Lives(LinkState(before.links, []), (1, 1), 1) && before.links.rows[(1, 1)].kongCertificateId == "k"
      && Lives(LinkState(after.links, []), (1, 1), 1) && after.links.rows[(1, 1)].kongCertificateId == ""
  {
    hide After, Blank, Format;
    Blanks();
    AfterTwoRead();
    OneMore(TwoRead(), Answer(1, Body("k")));
    OneMore(TwoRead() + [Answer(1, Body("k"))], Answer(0, Refused("409")));
  }

  /** A sync that finishes after its target was unlinked links it again. */
  lemma OverlapUndoesUnlink()
    ensures var before := After(TwoRead() + [Whole(SetTargets(1, []))], 4);
      var after := After(TwoRead() + [Whole(SetTargets(1, []))] + [Answer(0, Body("k"))], 5);
      (1, 1) !in before.links.rows && (1, 1) in after.links.rows && after.links.rows[(1, 1)].id == 2
  {
    hide After, SyncedLink, Blank, Relinked;
    AfterTwoRead();
    var t := After(TwoRead(), 3).links;
    RelinkedMeaning(t, 1, []);
    assert Relinked(t, 1, []).nextId == 2 by {
      NoTargetsKeepsCounter(t);
    }
    OneMore(TwoRead(), Whole(SetTargets(1, [])));
    OneMore(TwoRead() + [Whole(SetTargets(1, []))], Answer(0, Body("k")));
  }

  lemma NoTargetsKeepsCounter(t: Links)
    ensures Relinked(t, 1, []).nextId == t.nextId
  {
  }
}
