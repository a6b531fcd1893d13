/** When a certificate is due for renewal, and which expiry threshold it has reached. */
module Notification {
  import opened Wrappers
  import opened Text
  import opened Calendar
  import opened Domain

  // ---------- shouldAutoRenew ----------

  /** Everything the due test asks of a certificate besides the time. */
  predicate Eligible(c: Certificate) {
    && c.profile.autoRenew && c.expiresAt.Some? && c.profile.renewBeforeDays > 0
    && !Blank(c.certPath) && !Blank(c.keyPath)
    && c.status in {Active, Warning, Expired}
  }

  predicate ShouldAutoRenew(c: Certificate, now: int) {
    && Eligible(c)
    && AddDate(c.expiresAt.value, -c.profile.renewBeforeDays) <= now
  }

  // ---------- certificateExpiryNotification ----------

  /** math.Ceil of the remaining time in days. */
  function RemainingDays(expiresAt: int, now: int): int {
    -((now - expiresAt) / DAY)
  }

  datatype Threshold = In14Days | In7Days | In3Days | Now

  datatype Severity = Critical | Warn

  function ThresholdOf(remainingDays: int): Option<Threshold> {
    if 13 <= remainingDays <= 14 then Some(In14Days)
    else if 6 <= remainingDays <= 7 then Some(In7Days)
    else if 2 <= remainingDays <= 3 then Some(In3Days)
    else if -1 <= remainingDays <= 0 then Some(Now)
    else None
  }

  datatype Notice = Notice(certificateId: nat, event: Threshold, severity: Severity, remainingDays: int, at: int)

  function ExpiryNotification(c: Certificate, now: int): Option<Notice> {
    if c.expiresAt == None || Blank(c.certPath) then None
    else
      var days := RemainingDays(c.expiresAt.value, now);
      match ThresholdOf(days)
      case None => None
      case Some(event) => Some(Notice(c.id, event, if event == In14Days then Warn else Critical, days, now))
  }

  // ---------- the due test and the day count agree ----------

  lemma CeilingAtMost(left: int, n: int)
    ensures -(-left / DAY) <= n <==> left <= n * DAY
  {
    var q := -left / DAY;
    assert q * DAY <= -left < q * DAY + DAY;
    if -q <= n {
      assert -q * DAY <= n * DAY;
    } else {
      assert -q * DAY >= n * DAY + DAY;
    }
  }

  /** An eligible certificate is due exactly when its remaining days, rounded up, are at most the setting. */
  lemma DueIffRemainingDays(c: Certificate, now: int)
    requires Eligible(c)
    ensures ShouldAutoRenew(c, now) <==> RemainingDays(c.expiresAt.value, now) <= c.profile.renewBeforeDays
  {
    hide AddDate;
    AddDateIsShift(c.expiresAt.value, -c.profile.renewBeforeDays);
    CeilingAtMost(c.expiresAt.value - now, c.profile.renewBeforeDays);
  }

  /** Once due, a certificate stays due while its row keeps its expiry and stays eligible. */
  lemma DueStaysDue(c: Certificate, c': Certificate, now: int, later: int)
    requires ShouldAutoRenew(c, now) && now <= later && Eligible(c')
    requires c'.expiresAt == c.expiresAt && c'.profile.renewBeforeDays >= c.profile.renewBeforeDays
    ensures ShouldAutoRenew(c', later)
  {
    hide AddDate;
    AddDateIsShift(c.expiresAt.value, -c.profile.renewBeforeDays);
    AddDateIsShift(c'.expiresAt.value, -c'.profile.renewBeforeDays);
  }

  // ---------- each threshold is a window of exactly 48 hours ----------

  function Top(event: Threshold): int {
    match event
    case In14Days => 14
    case In7Days => 7
    case In3Days => 3
    case Now => 0
  }

  predicate InWindow(event: Threshold, expiresAt: int, now: int) {
    expiresAt - Top(event) * DAY <= now < expiresAt - Top(event) * DAY + 2 * DAY
  }

  lemma NotificationIffInWindow(c: Certificate, now: int, event: Threshold)
    requires c.expiresAt.Some? && !Blank(c.certPath)
    ensures (ExpiryNotification(c, now).Some? && ExpiryNotification(c, now).value.event == event)
       <==> InWindow(event, c.expiresAt.value, now)
  {
    var left := c.expiresAt.value - now;
    CeilingAtMost(left, Top(event));
    CeilingAtMost(left, Top(event) - 2);
  }

  /** The remaining days are the least whole number of days of 24 hours that covers the remaining time. */
  lemma RemainingDaysIsCeiling(expiresAt: int, now: int)
    ensures var day, days := 24 * 3600 * 1_000_000_000, RemainingDays(expiresAt, now);
      (days - 1) * day < expiresAt - now <= days * day
  {
    CeilingAtMost(expiresAt - now, RemainingDays(expiresAt, now));
    CeilingAtMost(expiresAt - now, RemainingDays(expiresAt, now) - 1);
  }

  /** The four notices in hours before expiry, and what each says. */
  lemma NoticesInHours(c: Certificate, now: int)
    requires c.expiresAt.Some? && !Blank(c.certPath)
    ensures var hour, left, notice := 3600 * 1_000_000_000, c.expiresAt.value - now, ExpiryNotification(c, now);
      && (notice.Some? && notice.value.event == In14Days <==> 288 * hour < left <= 336 * hour)
      && (notice.Some? && notice.value.event == In7Days <==> 120 * hour < left <= 168 * hour)
      && (notice.Some? && notice.value.event == In3Days <==> 24 * hour < left <= 72 * hour)
      && (notice.Some? && notice.value.event == Now <==> -48 * hour < left <= 0)
      && (notice.Some? ==>
        && notice.value.certificateId == c.id && notice.value.at == now
        && notice.value.remainingDays == RemainingDays(c.expiresAt.value, now)
        && notice.value.severity == if notice.value.event == In14Days then Warn else Critical)
  {
    hide RemainingDays;
    NotificationIffInWindow(c, now, In14Days);
    NotificationIffInWindow(c, now, In7Days);
    NotificationIffInWindow(c, now, In3Days);
    NotificationIffInWindow(c, now, Now);
  }

  /** Without an expiry or a certificate path there is no notice. */
  lemma NoNotice(c: Certificate, now: int)
    requires c.expiresAt.None? || Blank(c.certPath)
    ensures ExpiryNotification(c, now) == None
  {
  }

  /** What being due takes, condition by condition. */
  lemma DueIff(c: Certificate, now: int)
    ensures ShouldAutoRenew(c, now) <==>
      && c.profile.autoRenew && c.expiresAt.Some? && c.profile.renewBeforeDays > 0
      && !Blank(c.certPath) && !Blank(c.keyPath)
      && (c.status == Active || c.status == Warning || c.status == Expired)
      && c.expiresAt.value - now <= c.profile.renewBeforeDays * (24 * 3600 * 1_000_000_000)
  {
    hide AddDate, Blank;
    if c.expiresAt.Some? {
      AddDateIsShift(c.expiresAt.value, -c.profile.renewBeforeDays);
    }
  }
}
