/** RunOnce: renewing what is due, then announcing expiry thresholds at most once per day. */
module RenewalScheduler {
  import opened Wrappers
  import opened Text
  import opened Calendar
  import opened TimeText
  import opened Domain
  import opened Notification

  // ---------- the de-duplication key ----------

  function EventName(event: Threshold): string {
    match event
    case In14Days => "certificate_expiring_14_days"
    case In7Days => "certificate_expiring_7_days"
    case In3Days => "certificate_expiring_3_days"
    case Now => "certificate_expired"
  }

  function Key(id: nat, event: Threshold, now: int): string {
    Join([Decimal(id), EventName(event), DateText(DateOfInstant(now))], ':')
  }

  lemma EventNames(event: Threshold, event': Threshold)
    ensures ':' !in EventName(event)
    ensures EventName(event) == EventName(event') ==> event == event'
  {
    assert |"certificate_expiring_14_days"| == 28;
    assert "certificate_expiring_14_days"[21] == '1';
    assert "certificate_expiring_7_days"[21] == '7';
    assert "certificate_expiring_3_days"[21] == '3';
  }

  lemma KeyParts(id: nat, event: Threshold, now: int)
    requires InRange(now)
    ensures Split(Key(id, event, now), ':') == [Decimal(id), EventName(event), DateText(DateOfInstant(now))]
  {
    hide DateOfInstant, EventName, Decimal;
    var d := DateOfInstant(now);
    FourDigits(now);
    DecimalFacts(id);
    EventNames(event, event);
    DateTextHasNoColon(d);
    SplitOfJoin([Decimal(id), EventName(event), DateText(d)], ':');
  }

  lemma DateTextHasNoColon(d: Date)
    requires FourDigitDate(d)
    ensures ':' !in DateText(d)
  {
    hide Pad;
    Powers();
    PadFacts(d.year, 4);
    PadFacts(d.month, 2);
    PadFacts(d.day, 2);
  }

  /** Keys are equal only for the same certificate, event and UTC day. */
  lemma KeyInjective(id: nat, event: Threshold, now: int, id': nat, event': Threshold, now': int)
    requires InRange(now) && InRange(now') && Key(id, event, now) == Key(id', event', now')
    ensures id == id' && event == event' && DayIndex(now) == DayIndex(now')
  {
    hide DateOfInstant, Key, Decimal, DayIndex, InRange, EventName;
    KeyParts(id, event, now);
    KeyParts(id', event', now');
    DecimalInjective(id, id');
    EventNames(event, event');
    FourDigits(now);
    FourDigits(now');
    DateTextOrder(DateOfInstant(now), DateOfInstant(now'));
    DateOrderOfInstants(now, now');
  }

  lemma KeyOfSameDay(id: nat, event: Threshold, now: int, now': int)
    requires DayIndex(now) == DayIndex(now')
    ensures Key(id, event, now) == Key(id, event, now')
  {
    hide Join;
  }

  // ---------- what RunOnce does, as a function of its inputs ----------

  function DueIds(certificates: seq<Certificate>, now: int): seq<nat> {
    if certificates == [] then []
    else
      var last := certificates[|certificates| - 1];
      DueIds(certificates[..|certificates| - 1], now) + (if ShouldAutoRenew(last, now) then [last.id] else [])
  }

  /** The scheduler's memory of sent notices, and the notices themselves. */
  datatype Log = Log(notified: set<string>, sent: seq<Notice>)

  function Announce(log: Log, c: Certificate, now: int): Log {
    match ExpiryNotification(c, now)
    case None => log
    case Some(notice) =>
      var key := Key(notice.certificateId, notice.event, now);
      if key in log.notified then log else Log(log.notified + {key}, log.sent + [notice])
  }

  function AnnounceAll(log: Log, certificates: seq<Certificate>, now: int): Log {
    if certificates == [] then log
    else Announce(AnnounceAll(log, certificates[..|certificates| - 1], now), certificates[|certificates| - 1], now)
  }

  /**
   * The certificate of this id, to be renewed automatically, was issued under two paths, is active, warned of or
   * expired, and its expiry is at most its setting of days of 24 hours away.
   */
  predicate Wanted(c: Certificate, id: nat, now: int) {
    && c.id == id && c.profile.autoRenew && c.expiresAt.Some? && c.profile.renewBeforeDays > 0
    && !Blank(c.certPath) && !Blank(c.keyPath)
    && (c.status == Active || c.status == Warning || c.status == Expired)
    && c.expiresAt.value - now <= c.profile.renewBeforeDays * (24 * 3600 * 1_000_000_000)
  }

  lemma {:induction false} AttemptedIff(certificates: seq<Certificate>, now: int, id: nat)
    ensures id in DueIds(certificates, now) <==> exists c :: c in certificates && Wanted(c, id, now)
  {
    hide ShouldAutoRenew, Wanted;
    if certificates != [] {
      var n := |certificates| - 1;
      assert certificates == certificates[..n] + [certificates[n]];
      AttemptedIff(certificates[..n], now, id);
      DueIsWanted(certificates[n], now, id);
    }
  }

  lemma DueIsWanted(c: Certificate, now: int, id: nat)
    ensures Wanted(c, id, now) <==> ShouldAutoRenew(c, now) && c.id == id
  {
    hide ShouldAutoRenew, Blank;
    DueIff(c, now);
  }

  class Scheduler {
    const hasNotifier: bool
    var notified: set<string>
    // The notices handed to the notifier so far. Its answers are ignored by the program.
    var sent: seq<Notice>

    function Memory(): Log
      reads this
    {
      Log(notified, sent)
    }

    constructor (hasNotifier: bool)
      ensures Memory() == Log({}, []) && this.hasNotifier == hasNotifier
    {
      this.hasNotifier := hasNotifier;
      notified, sent := {}, [];
    }

    method ExpiryNotificationSent(notice: Notice, now: int) returns (already: bool)
      modifies this`notified
      ensures already == (Key(notice.certificateId, notice.event, now) in old(notified))
      ensures notified == old(notified) + {Key(notice.certificateId, notice.event, now)}
    {
      var key := Key(notice.certificateId, notice.event, now);
      if key in notified {
        return true;
      }
      notified := notified + {key};
      return false;
    }

    /**
     * `listing` and `relisting` are the two answers of the certificate list, `failures` the errors the
     * renewer returns by certificate id. `attempts` are the ids handed to the renewer, in order.
     */
    method RunOnce(now: int, listing: Result<seq<Certificate>>, failures: map<nat, string>,
                   relisting: Result<seq<Certificate>>)
      returns (attempts: seq<nat>, errors: seq<string>)
      modifies this
      ensures listing.Err? ==> attempts == [] && errors == [listing.error] && Memory() == old(Memory())
      ensures listing.Ok? ==> attempts == DueIds(listing.value, now)
      ensures listing.Ok? ==> forall id :: id in attempts <==> exists c :: c in listing.value && Wanted(c, id, now)
      ensures listing.Ok? ==> errors == Failures(attempts, failures) + ListError(hasNotifier, relisting)
      ensures listing.Ok? && hasNotifier && relisting.Ok? ==>
        Memory() == AnnounceAll(old(Memory()), relisting.value, now)
      ensures !(listing.Ok? && hasNotifier && relisting.Ok?) ==> Memory() == old(Memory())
    {
      hide DueIds, AnnounceAll, Failures, Wanted;
      if listing.Err? {
        return [], [listing.error];
      }
      forall id: nat {
        AttemptedIff(listing.value, now, id);
      }
      attempts, errors := RenewDue(now, listing.value, failures);
      if hasNotifier {
        if relisting.Err? {
          errors := errors + [relisting.error];
        } else {
          AnnounceExpiring(now, relisting.value);
        }
      }
    }

    method RenewDue(now: int, certificates: seq<Certificate>, failures: map<nat, string>)
      returns (attempts: seq<nat>, errors: seq<string>)
      ensures attempts == DueIds(certificates, now) && errors == Failures(attempts, failures)
    {
      hide ShouldAutoRenew;
      attempts, errors := [], [];
      for i := 0 to |certificates|
        invariant attempts == DueIds(certificates[..i], now)
        invariant errors == Failures(attempts, failures)
      {
        assert certificates[..i + 1][..i] == certificates[..i];
        if !ShouldAutoRenew(certificates[i], now) {
          continue;
        }
        var id := certificates[i].id;
        ghost var before := attempts;
        attempts := attempts + [id];
        assert attempts[..|before|] == before;
        if id in failures {
          errors := errors + [failures[id]];
        }
      }
      assert certificates[..|certificates|] == certificates;
    }

    method AnnounceExpiring(now: int, refreshed: seq<Certificate>)
      modifies this
      ensures Memory() == AnnounceAll(old(Memory()), refreshed, now)
    {
      hide ExpiryNotification, Key;
      for i := 0 to |refreshed|
        invariant Memory() == AnnounceAll(old(Memory()), refreshed[..i], now)
      {
        assert refreshed[..i + 1][..i] == refreshed[..i];
        var event := ExpiryNotification(refreshed[i], now);
        if event.Some? {
          var already := ExpiryNotificationSent(event.value, now);
          if already {
            continue;
          }
          sent := sent + [event.value];
        }
      }
      assert refreshed[..|refreshed|] == refreshed;
    }
  }

  function ListError(hasNotifier: bool, relisting: Result<seq<Certificate>>): seq<string> {
    if hasNotifier && relisting.Err? then [relisting.error] else []
  }

  function Failures(attempts: seq<nat>, failures: map<nat, string>): seq<string> {
    if attempts == [] then []
    else
      var id := attempts[|attempts| - 1];
      Failures(attempts[..|attempts| - 1], failures) + (if id in failures then [failures[id]] else [])
  }

  /** The errors of a round are those of the attempts that failed. */
  lemma {:induction false} FailuresIff(attempts: seq<nat>, failures: map<nat, string>, error: string)
    ensures error in Failures(attempts, failures) <==>
      exists id :: id in attempts && id in failures && failures[id] == error
    ensures |Failures(attempts, failures)| <= |attempts|
  {
    if attempts != [] {
      var n := |attempts| - 1;
      assert attempts == attempts[..n] + [attempts[n]];
      FailuresIff(attempts[..n], failures, error);
    }
  }

  /** They come in the order of the attempts. */
  lemma {:induction false} FailuresInOrder(attempts: seq<nat>, failures: map<nat, string>, n: nat)
    requires n <= |attempts|
    ensures Failures(attempts[..n], failures) <= Failures(attempts, failures)
  {
    if n < |attempts| {
      var m := |attempts| - 1;
      FailuresInOrder(attempts[..m], failures, n);
      assert attempts[..m][..n] == attempts[..n];
    } else {
      assert attempts[..n] == attempts;
    }
  }

  // ---------- renewal attempts ----------

  predicate DistinctIds(certificates: seq<Certificate>) {
    forall i, j :: 0 <= i < j < |certificates| ==> certificates[i].id != certificates[j].id
  }

  predicate Distinct(ids: seq<nat>) {
    forall i, j :: 0 <= i < j < |ids| ==> ids[i] != ids[j]
  }

  ghost predicate IsDue(certificates: seq<Certificate>, now: int, id: nat) {
    exists c :: c in certificates && c.id == id && ShouldAutoRenew(c, now)
  }

  /** The attempts are exactly the due certificates, each once, whatever any of them returns. */
  lemma {:induction false} AttemptsAreTheDue(certificates: seq<Certificate>, now: int)
    requires DistinctIds(certificates)
    ensures forall id :: id in DueIds(certificates, now) <==> IsDue(certificates, now, id)
    ensures Distinct(DueIds(certificates, now))
  {
    hide ShouldAutoRenew;
    if certificates != [] {
      var n := |certificates| - 1;
      assert certificates == certificates[..n] + [certificates[n]];
      AttemptsAreTheDue(certificates[..n], now);
      assert !IsDue(certificates[..n], now, certificates[n].id);
      assert forall id :: IsDue(certificates, now, id) <==>
        IsDue(certificates[..n], now, id) || (id == certificates[n].id && ShouldAutoRenew(certificates[n], now));
    }
  }

  /** Attempts come in list order: what is due in a prefix of the list is attempted first. */
  lemma {:induction false} AttemptsInListOrder(certificates: seq<Certificate>, now: int, n: nat)
    requires n <= |certificates|
    ensures DueIds(certificates[..n], now) <= DueIds(certificates, now)
  {
    hide ShouldAutoRenew;
    if n < |certificates| {
      var m := |certificates| - 1;
      AttemptsInListOrder(certificates[..m], now, n);
      assert certificates[..m][..n] == certificates[..n];
    } else {
      assert certificates[..n] == certificates;
    }
  }

  // ---------- notices over a whole run of the scheduler ----------

  /** One RunOnce that reached the notifier: its time and the refreshed list. */
  datatype Round = Round(now: int, certificates: seq<Certificate>)

  function LogAfter(rounds: seq<Round>): Log {
    if rounds == [] then Log({}, [])
    else
      var last := rounds[|rounds| - 1];
      AnnounceAll(LogAfter(rounds[..|rounds| - 1]), last.certificates, last.now)
  }

  function KeyOf(notice: Notice): string {
    Key(notice.certificateId, notice.event, notice.at)
  }

  /** The remembered keys are those of the sent notices, and no two notices share one. */
  ghost predicate Consistent(log: Log) {
    && (forall key :: key in log.notified <==> exists i :: 0 <= i < |log.sent| && KeyOf(log.sent[i]) == key)
    && (forall i, j :: 0 <= i < j < |log.sent| ==> KeyOf(log.sent[i]) != KeyOf(log.sent[j]))
  }

  lemma AnnounceConsistent(log: Log, c: Certificate, now: int)
    requires Consistent(log)
    ensures Consistent(Announce(log, c, now))
    ensures log.sent <= Announce(log, c, now).sent
    ensures forall i :: |log.sent| <= i < |Announce(log, c, now).sent| ==>
      ExpiryNotification(c, now) == Some(Announce(log, c, now).sent[i])
  {
    hide Key;
    var notice := ExpiryNotification(c, now);
    var after := Announce(log, c, now);
    if after != log {
      var n := |log.sent|;
      assert KeyOf(after.sent[n]) == Key(notice.value.certificateId, notice.value.event, now);
      assert forall i :: 0 <= i < n ==> after.sent[i] == log.sent[i] && KeyOf(log.sent[i]) in log.notified;
    }
  }

  lemma {:induction false} AnnounceAllConsistent(log: Log, certificates: seq<Certificate>, now: int)
    requires Consistent(log)
    ensures Consistent(AnnounceAll(log, certificates, now))
    ensures log.sent <= AnnounceAll(log, certificates, now).sent
    ensures forall i :: |log.sent| <= i < |AnnounceAll(log, certificates, now).sent| ==>
      FromList(certificates, now, AnnounceAll(log, certificates, now).sent[i])
  {
    hide Key, ExpiryNotification, Consistent;
    if certificates != [] {
      var n := |certificates| - 1;
      AnnounceAllConsistent(log, certificates[..n], now);
      assert certificates == certificates[..n] + [certificates[n]];
      AnnounceConsistent(AnnounceAll(log, certificates[..n], now), certificates[n], now);
    }
  }

  ghost predicate FromRound(rounds: seq<Round>, notice: Notice) {
    exists r, c :: r in rounds && c in r.certificates && ExpiryNotification(c, r.now) == Some(notice)
  }

  ghost predicate FromList(certificates: seq<Certificate>, now: int, notice: Notice) {
    exists c :: c in certificates && ExpiryNotification(c, now) == Some(notice)
  }

  /** Every notice ever sent comes from a certificate listed in some round, at that round's time. */
  lemma {:induction false} SentFromRounds(rounds: seq<Round>)
    ensures Consistent(LogAfter(rounds))
    ensures forall i :: 0 <= i < |LogAfter(rounds).sent| ==> FromRound(rounds, LogAfter(rounds).sent[i])
  {
    hide Key, ExpiryNotification;
    if rounds != [] {
      var n := |rounds| - 1;
      var last := rounds[n];
      assert rounds == rounds[..n] + [last];
      SentFromRounds(rounds[..n]);
      var before := LogAfter(rounds[..n]);
      AnnounceAllConsistent(before, last.certificates, last.now);
      forall i | 0 <= i < |LogAfter(rounds).sent|
        ensures FromRound(rounds, LogAfter(rounds).sent[i])
      {
        if i < |before.sent| {
          assert LogAfter(rounds).sent[i] == before.sent[i];
        } else {
          assert FromList(last.certificates, last.now, LogAfter(rounds).sent[i]);
          assert last in rounds;
        }
      }
    }
  }

  predicate ClockInRange(rounds: seq<Round>) {
    forall r :: r in rounds ==> InRange(r.now)
  }

  /** At most one notice per certificate, event and UTC date is ever sent. */
  lemma AtMostOncePerDay(rounds: seq<Round>, i: int, j: int)
    requires ClockInRange(rounds) && 0 <= i < j < |LogAfter(rounds).sent|
    ensures var a, b := LogAfter(rounds).sent[i], LogAfter(rounds).sent[j];
      !(a.certificateId == b.certificateId && a.event == b.event && DayIndex(a.at) == DayIndex(b.at))
  {
    hide Key, DayIndex, LogAfter;
    SentFromRounds(rounds);
    var a, b := LogAfter(rounds).sent[i], LogAfter(rounds).sent[j];
    if a.certificateId == b.certificateId && a.event == b.event && DayIndex(a.at) == DayIndex(b.at) {
      KeyOfSameDay(a.certificateId, a.event, a.at, b.at);
    }
  }

  /** The certificate keeps one expiry, and a certificate path, in every round that lists it. */
  predicate FixedExpiry(rounds: seq<Round>, id: nat, expiresAt: int) {
    forall r, c :: r in rounds && c in r.certificates && c.id == id ==>
      c.expiresAt == Some(expiresAt) && !Blank(c.certPath)
  }

  lemma NoticeInWindow(rounds: seq<Round>, id: nat, expiresAt: int, i: int)
    requires FixedExpiry(rounds, id, expiresAt) && 0 <= i < |LogAfter(rounds).sent|
    requires LogAfter(rounds).sent[i].certificateId == id
    ensures InWindow(LogAfter(rounds).sent[i].event, expiresAt, LogAfter(rounds).sent[i].at)
  {
    hide Key, LogAfter, InWindow;
    SentFromRounds(rounds);
    var notice := LogAfter(rounds).sent[i];
    var r, c :| r in rounds && c in r.certificates && ExpiryNotification(c, r.now) == Some(notice);
    NotificationIffInWindow(c, r.now, notice.event);
  }

  /** A 48-hour window meets three dates at most, so no threshold is announced four times. */
  lemma AtMostThreePerWindow(
    rounds: seq<Round>, id: nat, event: Threshold, expiresAt: int, i: int, j: int, k: int, l: int)
    requires ClockInRange(rounds) && FixedExpiry(rounds, id, expiresAt)
    requires 0 <= i < j < k < l < |LogAfter(rounds).sent|
    ensures var sent := LogAfter(rounds).sent;
      !AllAbout(sent, {i, j, k, l}, id, event)
  {
    hide LogAfter, FixedExpiry, ClockInRange, DayIndex, InWindow;
    var sent := LogAfter(rounds).sent;
    if AllAbout(sent, {i, j, k, l}, id, event) {
      assert About(sent[i], id, event) && About(sent[j], id, event);
      assert About(sent[k], id, event) && About(sent[l], id, event);
      forall n | n in {i, j, k, l}
        ensures WithinThreeDays(event, expiresAt, DayIndex(sent[n].at))
      {
        NoticeInWindow(rounds, id, expiresAt, n);
        WindowDays(event, expiresAt, sent[n].at);
      }
      AtMostOncePerDay(rounds, i, j);
      AtMostOncePerDay(rounds, i, k);
      AtMostOncePerDay(rounds, i, l);
      AtMostOncePerDay(rounds, j, k);
      AtMostOncePerDay(rounds, j, l);
      AtMostOncePerDay(rounds, k, l);
    }
  }

  predicate AllAbout(sent: seq<Notice>, at: set<int>, id: nat, event: Threshold) {
    forall n :: n in at ==> 0 <= n < |sent| && About(sent[n], id, event)
  }

  predicate About(notice: Notice, id: nat, event: Threshold) {
    notice.certificateId == id && notice.event == event
  }

  predicate WithinThreeDays(event: Threshold, expiresAt: int, day: int) {
    var first := DayIndex(expiresAt - Top(event) * DAY);
    first <= day <= first + 2
  }

  lemma WindowDays(event: Threshold, expiresAt: int, t: int)
    requires InWindow(event, expiresAt, t)
    ensures WithinThreeDays(event, expiresAt, DayIndex(t))
  {
  }

  predicate Lists(r: Round, id: nat) {
    exists c :: c in r.certificates && c.id == id
  }

  lemma {:induction false} AnnouncedOrRemembered(log: Log, certificates: seq<Certificate>, now: int, c: Certificate)
    requires c in certificates && ExpiryNotification(c, now).Some?
    ensures Key(c.id, ExpiryNotification(c, now).value.event, now) in AnnounceAll(log, certificates, now).notified
  {
    hide Key, ExpiryNotification;
    assert ExpiryNotification(c, now).value.certificateId == c.id by {
      NoticeIsAbout(c, now);
    }
    var n := |certificates| - 1;
    assert certificates == certificates[..n] + [certificates[n]];
    if certificates[n] != c {
      AnnouncedOrRemembered(log, certificates[..n], now, c);
    }
  }

  lemma NoticeIsAbout(c: Certificate, now: int)
    requires ExpiryNotification(c, now).Some?
    ensures ExpiryNotification(c, now).value.certificateId == c.id && ExpiryNotification(c, now).value.at == now
  {
  }

  lemma {:induction false} RoundRemembered(rounds: seq<Round>, n: int, id: nat, event: Threshold, expiresAt: int)
    requires 0 <= n < |rounds| && FixedExpiry(rounds, id, expiresAt) && Lists(rounds[n], id)
    requires InWindow(event, expiresAt, rounds[n].now)
    ensures Key(id, event, rounds[n].now) in LogAfter(rounds).notified
  {
    hide Key, ExpiryNotification, InWindow;
    var m := |rounds| - 1;
    assert rounds == rounds[..m] + [rounds[m]];
    var before := LogAfter(rounds[..m]);
    if n == m {
      var c :| c in rounds[n].certificates && c.id == id;
      assert rounds[n] in rounds;
      NotificationIffInWindow(c, rounds[n].now, event);
      AnnouncedOrRemembered(before, rounds[n].certificates, rounds[n].now, c);
    } else {
      assert rounds[..m][n] == rounds[n];
      RoundRemembered(rounds[..m], n, id, event, expiresAt);
      NotifiedGrows(before, rounds[m].certificates, rounds[m].now);
    }
  }

  lemma {:induction false} NotifiedGrows(log: Log, certificates: seq<Certificate>, now: int)
    ensures log.notified <= AnnounceAll(log, certificates, now).notified
  {
    hide Key, ExpiryNotification;
    if certificates != [] {
      NotifiedGrows(log, certificates[..|certificates| - 1], now);
    }
  }

  lemma {:induction false} SomeRoundInWindow(rounds: seq<Round>, start: int, last: int) returns (n: int)
    requires 0 <= last < |rounds| && rounds[0].now < start <= rounds[last].now
    requires forall k :: 0 < k < |rounds| ==> rounds[k - 1].now <= rounds[k].now <= rounds[k - 1].now + 2 * DAY
    ensures 0 <= n < |rounds| && start <= rounds[n].now < start + 2 * DAY
    decreases last
  {
    if rounds[last - 1].now < start {
      n := last;
    } else {
      n := SomeRoundInWindow(rounds, start, last - 1);
    }
  }

  /**
   * Rounds at most 48 hours apart that begin before a threshold window and reach its start announce
   * that threshold at least once, at a time inside the window's dates.
   */
  lemma AnnouncedAtLeastOnce(rounds: seq<Round>, id: nat, event: Threshold, expiresAt: int, last: int)
    requires ClockInRange(rounds) && FixedExpiry(rounds, id, expiresAt)
    requires forall r :: r in rounds ==> Lists(r, id)
    requires 0 <= last < |rounds|
    requires rounds[0].now < expiresAt - Top(event) * DAY <= rounds[last].now
    requires forall k :: 0 < k < |rounds| ==> rounds[k - 1].now <= rounds[k].now <= rounds[k - 1].now + 2 * DAY
    ensures exists notice ::
      notice in LogAfter(rounds).sent && About(notice, id, event) && InWindow(event, expiresAt, notice.at)
  {
    hide Key, LogAfter, ExpiryNotification, DayIndex, Lists;
    var n := SomeRoundInWindow(rounds, expiresAt - Top(event) * DAY, last);
    assert rounds[n] in rounds;
    RoundRemembered(rounds, n, id, event, expiresAt);
    SentFromRounds(rounds);
    var log := LogAfter(rounds);
    var i :| 0 <= i < |log.sent| && KeyOf(log.sent[i]) == Key(id, event, rounds[n].now);
    var r, c :| r in rounds && c in r.certificates && ExpiryNotification(c, r.now) == Some(log.sent[i]);
    NoticeIsAbout(c, r.now);
    KeyInjective(log.sent[i].certificateId, log.sent[i].event, log.sent[i].at, id, event, rounds[n].now);
    NoticeInWindow(rounds, id, expiresAt, i);
    assert log.sent[i] in log.sent;
  }

  /** One round announces at most one threshold per certificate. */
  lemma {:induction false} OneNoticePerRound(log: Log, certificates: seq<Certificate>, now: int, i: int, j: int)
    requires DistinctIds(certificates)
    requires |log.sent| <= i < j < |AnnounceAll(log, certificates, now).sent|
    ensures AnnounceAll(log, certificates, now).sent[i].certificateId
      != AnnounceAll(log, certificates, now).sent[j].certificateId
  {
    hide Key, ExpiryNotification;
    if certificates != [] {
      var n := |certificates| - 1;
      var front := certificates[..n];
      assert certificates == front + [certificates[n]];
      if j < |AnnounceAll(log, front, now).sent| {
        OneNoticePerRound(log, front, now, i, j);
      } else {
        NoticesFromList(log, front, now, i);
        NoticeIsAbout(certificates[n], now);
      }
    }
  }

  lemma {:induction false} NoticesFromList(log: Log, certificates: seq<Certificate>, now: int, i: int)
    requires |log.sent| <= i < |AnnounceAll(log, certificates, now).sent|
    ensures exists c :: c in certificates && c.id == AnnounceAll(log, certificates, now).sent[i].certificateId
  {
    hide Key, ExpiryNotification;
    if certificates != [] {
      var n := |certificates| - 1;
      assert certificates == certificates[..n] + [certificates[n]];
      if i < |AnnounceAll(log, certificates[..n], now).sent| {
        NoticesFromList(log, certificates[..n], now, i);
      } else {
        NoticeIsAbout(certificates[n], now);
      }
    }
  }
}
