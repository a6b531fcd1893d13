/** The link table between certificates and Kong targets, and what Kong's answers do to a link. */
module Links {
  import opened Wrappers
  import opened Text
  import opened TimeText
  import opened Domain

  /** Rows are unique per certificate and target; `id` tells a row from an earlier row of the same pair. */
  datatype Link = Link(
    id: nat, kongCertificateId: string, status: SyncStatus, lastSyncedAt: Option<string>, lastError: string)

  type Pair = (nat, nat)

  datatype Links = Links(rows: map<Pair, Link>, nextId: nat)

  // ---------- SetLinkedTargets ----------

  /** DELETE ... WHERE certificate_id = ? AND kong_target_id NOT IN (...). */
  function KeepOnly(t: Links, cert: nat, targets: seq<nat>): Links {
    t.(rows := map pair | pair in t.rows && (pair.0 != cert || pair.1 in targets) :: t.rows[pair])
  }

  /** INSERT OR IGNORE. */
  function InsertOrIgnore(t: Links, cert: nat, target: nat): Links {
    if (cert, target) in t.rows then t
    else Links(t.rows[(cert, target) := Link(t.nextId, "", NotSynced, None, "")], t.nextId + 1)
  }

  function InsertAll(t: Links, cert: nat, targets: seq<nat>): Links {
    if targets == [] then t
    else InsertOrIgnore(InsertAll(t, cert, targets[..|targets| - 1]), cert, targets[|targets| - 1])
  }

  function Relinked(t: Links, cert: nat, targets: seq<nat>): Links {
    InsertAll(KeepOnly(t, cert, targets), cert, targets)
  }

  /** The links of a certificate afterwards: exactly the targets asked for; nothing else moves. */
  lemma RelinkedMeaning(t: Links, cert: nat, targets: seq<nat>)
    ensures var t' := Relinked(t, cert, targets);
      && (forall target :: (cert, target) in t'.rows <==> target in targets)
      && (forall pair :: pair in t'.rows && pair in t.rows ==> t'.rows[pair] == t.rows[pair])
      && (forall pair :: pair in t'.rows && pair !in t.rows ==>
        t'.rows[pair] == Link(t'.rows[pair].id, "", NotSynced, None, "") && t'.rows[pair].id >= t.nextId)
      && (forall pair: Pair :: pair.0 != cert ==> (pair in t'.rows <==> pair in t.rows))
  {
    InsertAllMeaning(KeepOnly(t, cert, targets), cert, targets);
  }

  lemma {:induction false} InsertAllMeaning(t: Links, cert: nat, targets: seq<nat>)
    ensures var t' := InsertAll(t, cert, targets);
      && t'.nextId >= t.nextId
      && (forall pair: Pair :: pair in t'.rows <==> pair in t.rows || (pair.0 == cert && pair.1 in targets))
      && (forall pair :: pair in t.rows ==> t'.rows[pair] == t.rows[pair])
      && (forall pair :: pair in t'.rows && pair !in t.rows ==>
        t'.rows[pair] == Link(t'.rows[pair].id, "", NotSynced, None, "") && t.nextId <= t'.rows[pair].id < t'.nextId)
  {
    if targets != [] {
      var n := |targets| - 1;
      assert targets == targets[..n] + [targets[n]];
      InsertAllMeaning(t, cert, targets[..n]);
    }
  }

  // ---------- the Kong client ----------

  /** Kong's answer to one request: no answer, an error status, or success with an empty body, a bad body or an id. */
  datatype Reply =
    | Unreachable(cause: string) | Refused(status: string) | Empty | Garbled(cause: string) | Body(id: string)

  /** Kong answered with success, whatever the client makes of the body. */
  predicate Accepted(reply: Reply) {
    reply.Empty? || reply.Garbled? || reply.Body?
  }

  datatype Method = Post | Patch

  datatype Request = Request(
    target: nat, verb: Method, existing: string, cert: string, key: string, snis: seq<string>, tags: seq<string>)

  function MethodFor(existing: string): Method {
    if Blank(existing) then Post else Patch
  }

  /** The id the client reports, or its error. */
  function ClientResult(existing: string, reply: Reply): Result<string> {
    match reply
    case Unreachable(cause) => Err("Kong certificate sync failed: " + cause)
    case Refused(status) => Err("Kong certificate sync returned " + status)
    case Empty => if Blank(existing) then Err("parse Kong sync response: EOF") else Ok(existing)
    case Garbled(cause) => Err("parse Kong sync response: " + cause)
    case Body(id) =>
      var decoded := if id == "" then existing else id;
      if decoded == "" then Err("Kong sync response missing certificate id") else Ok(decoded)
  }

  /** The client has an id exactly when Kong sent one, or accepted the request of a link that already has one. */
  lemma ClientResultIff(existing: string, reply: Reply)
    ensures ClientResult(existing, reply).Ok? <==>
      match reply
      case Body(id) => id != "" || existing != ""
      case Empty => exists c :: c in existing && !IsSpace(c)
      case _ => false
    ensures ClientResult(existing, reply).Ok? ==>
      ClientResult(existing, reply).value == if reply.Body? && reply.id != "" then reply.id else existing
  {
    hide IsSpace, Blank;
    BlankIff(existing);
  }

  class AdminClient {
    // Every request sent, in order.
    var requests: seq<Request>

    constructor ()
      ensures requests == []
    {
      requests := [];
    }

    method SyncCertificate(target: nat, existing: string, cert: string, key: string, snis: seq<string>,
                           tags: seq<string>, reply: Reply)
      returns (r: Result<string>)
      modifies this
      ensures requests == old(requests) + [Request(target, MethodFor(existing), existing, cert, key, snis, tags)]
      ensures r == ClientResult(existing, reply)
      ensures |requests| == |old(requests)| + 1 && var q := requests[|requests| - 1];
        && q.target == target && q.existing == existing && q.cert == cert && q.key == key
        && q.snis == snis && q.tags == tags && (q.verb == Post <==> Blank(existing))
    {
      var verb := Post;
      if !Blank(existing) {
        verb := Patch;
      }
      requests := requests + [Request(target, verb, existing, cert, key, snis, tags)];
      match reply {
        case Unreachable(cause) => return Err("Kong certificate sync failed: " + cause);
        case Refused(status) => return Err("Kong certificate sync returned " + status);
        case Empty =>
          if !Blank(existing) {
            return Ok(existing);
          }
          return Err("parse Kong sync response: EOF");
        case Garbled(cause) => return Err("parse Kong sync response: " + cause);
        case Body(id) =>
          var decoded := id;
          if decoded == "" {
            decoded := existing;
          }
          if decoded == "" {
            return Err("Kong sync response missing certificate id");
          }
          return Ok(decoded);
      }
    }
  }

  // ---------- one sync of one link ----------

  /** `readError` is the error of reading the certificate files, when there is one; then Kong is not asked. */
  function SyncedLink(link: Link, readError: Option<string>, reply: Reply, now: int): Link {
    if readError.Some? then link.(status := SyncFailed, lastError := readError.value)
    else
      match ClientResult(link.kongCertificateId, reply)
      case Err(e) => link.(status := SyncFailed, lastError := e)
      case Ok(id) =>
        link.(kongCertificateId := id, status := Synced, lastSyncedAt := Some(Format(now)), lastError := "")
  }

  /** A link that says synced has a Kong id, no error, and the time it happened. */
  predicate Honest(link: Link) {
    link.status.Synced? ==> link.kongCertificateId != "" && link.lastError == "" && link.lastSyncedAt.Some?
  }

  lemma EmptyIsBlank()
    ensures Blank("")
  {
  }

  lemma SyncedLinkFacts(link: Link, readError: Option<string>, reply: Reply, now: int)
    ensures var link' := SyncedLink(link, readError, reply, now);
      && Honest(link')
      && (link'.status.Synced? || link'.status.SyncFailed?)
      && link'.id == link.id
      && (link.kongCertificateId != "" ==> link'.kongCertificateId != "")
      && (link'.status.SyncFailed? && (readError.Some? ==> readError.value != "") ==> link'.lastError != "")
  {
    hide Format, Blank;
    EmptyIsBlank();
  }

  /** What one sync leaves in the link, by what happened. */
  lemma SyncedLinkByReply(link: Link, readError: Option<string>, reply: Reply, now: int)
    ensures var link', result := SyncedLink(link, readError, reply, now), ClientResult(link.kongCertificateId, reply);
      && link'.id == link.id
      && if readError.None? && result.Ok? then
           && link'.kongCertificateId == result.value && link'.status == Synced
           && link'.lastSyncedAt == Some(Format(now)) && link'.lastError == ""
         else
           && link'.kongCertificateId == link.kongCertificateId && link'.status == SyncFailed
           && link'.lastSyncedAt == link.lastSyncedAt
           && link'.lastError == if readError.Some? then readError.value else result.error
  {
    hide Format, ClientResult;
  }
}
