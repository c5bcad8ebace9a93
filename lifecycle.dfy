/** One document of the `whitelist` collection and what each handler's
    `updateOne` does to it. An upsert starts from the empty document when
    the id has none; `$set` changes the listed fields only; `$unset` removes
    them, which the model writes as `false` for a flag and `None` for a
    stamp. The candidate's state is never stored: the status read derives it
    from the flags. */
module Lifecycle {
  import opened Common

  /** 48 hours, the cooldown a failed screening starts. */
  const CooldownMs: int := 48 * 3600 * 1000

  const DefaultReason := "Aucune raison precisee"
  const WebStaff := "admin-web"

  /** The application form as the candidate's page posts it. */
  datatype Form = Form(pseudo: string, avatar: string, answers: map<string, string>)

  datatype Record = Record(
    score: Option<int>,
    failedAt: Option<Time>,
    cooldownUntil: Option<Time>,
    submitted: bool,
    submittedAt: Option<Time>,
    form: Option<Form>,
    whitelisted: bool,
    whitelistedAt: Option<Time>,
    whitelistedBy: Option<string>,
    blacklisted: bool,
    blacklistedAt: Option<Time>,
    blacklistedBy: Option<string>,
    blacklistReason: Option<string>,
    ticketChannelId: Option<Id>,
    ticketClosed: bool)

  /** The document an upsert inserts before applying its `$set`. */
  const Fresh := Record(None, None, None, false, None, None, false, None, None,
                        false, None, None, None, None, false)

  function Upsert(entry: Option<Record>): Record {
    entry.GetOr(Fresh)
  }

  /** POST /api/whitelist/fail */
  function AfterFail(entry: Option<Record>, score: Option<int>, now: Time): Record {
    Upsert(entry).(score := score, failedAt := Some(now),
                   cooldownUntil := Some(now + CooldownMs), submitted := false)
  }

  /** The store write of POST /api/whitelist/submit. */
  function AfterSubmit(entry: Option<Record>, form: Form, now: Time): Record {
    Upsert(entry).(form := Some(form), submitted := true, submittedAt := Some(now),
                   cooldownUntil := None)
  }

  /** The second write of submit, once the ticket channel exists. */
  function WithTicket(rec: Record, channel: Id): Record {
    rec.(ticketChannelId := Some(channel), ticketClosed := false)
  }

  /** POST /api/whitelist/bl and the /blwhitelist command. */
  function AfterBlacklist(entry: Option<Record>, reason: string, staff: string, now: Time): Record {
    Upsert(entry).(blacklisted := true, blacklistedAt := Some(now), blacklistedBy := Some(staff),
                   blacklistReason := Some(reason), whitelisted := false)
  }

  /** POST /api/whitelist/unbl, which does not upsert. */
  function AfterUnblacklist(rec: Record): Record {
    rec.(blacklisted := false, blacklistedAt := None, blacklistedBy := None,
         blacklistReason := None)
  }

  /** POST /api/whitelist/addwl */
  function AfterWebWhitelist(entry: Option<Record>, now: Time): Record {
    Upsert(entry).(whitelisted := true, whitelistedAt := Some(now),
                   whitelistedBy := Some(WebStaff), blacklisted := false)
  }

  /** The /addwhitelist command, which leaves `blacklisted` as it was. */
  function AfterSlashWhitelist(rec: Record, staff: string, now: Time): Record {
    rec.(whitelisted := true, whitelistedAt := Some(now), whitelistedBy := Some(staff))
  }

  /** The close-ticket button. */
  function AfterClose(rec: Record): Record {
    rec.(ticketClosed := true)
  }

  /** `body.raison || 'Aucune raison precisee'` */
  function ReasonOrDefault(reason: string): (r: string)
    ensures r != ""
    ensures reason == "" ==> r == DefaultReason
    ensures reason != "" ==> r == reason
  {
    if reason == "" then DefaultReason else reason
  }

  /** The JSON bodies of GET /api/whitelist/status:
      Open is `{cooldown:false, submitted:false, whitelisted:false}`,
      Accepted is `{whitelisted:true, submitted:true}`,
      Pending is `{submitted:true, whitelisted:false}`,
      CoolingDown is `{cooldown:true, failedAt}`. */
  datatype Status = Open | Accepted | Pending | CoolingDown(failedAt: Time)

  /** A cooldown is in force while its end is strictly after `now`. */
  predicate CooldownActive(rec: Record, now: Time) {
    rec.cooldownUntil.Some? && rec.cooldownUntil.value > now
  }

  /** The status read; `failedAt` falls back to `now` when missing or zero
      (`entry.failedAt?.getTime?.() || Date.now()`). */
  function StatusOf(entry: Option<Record>, now: Time): Status {
    match entry
    case None => Open
    case Some(rec) =>
      if rec.whitelisted then Accepted
      else if rec.submitted then Pending
      else if CooldownActive(rec, now) then
        CoolingDown(if rec.failedAt.Some? && rec.failedAt.value != 0 then rec.failedAt.value else now)
      else Open
  }

  /** The submit handler's duplicate check: 409 exactly when a submitted
      document exists. */
  predicate IsDuplicate(entry: Option<Record>) {
    entry.Some? && entry.value.submitted
  }

  /** Whitelisted wins over submitted, submitted over a cooldown, and the
      blacklist flags and stamps never show. */
  lemma StatusPrecedence(rec: Record, now: Time)
    ensures rec.whitelisted ==> StatusOf(Some(rec), now) == Accepted
    ensures !rec.whitelisted && rec.submitted ==> StatusOf(Some(rec), now) == Pending
    ensures StatusOf(Some(rec), now).CoolingDown? <==>
      !rec.whitelisted && !rec.submitted && CooldownActive(rec, now)
    ensures forall b, at, who, reason ::
      StatusOf(Some(rec), now)
        == StatusOf(Some(rec.(blacklisted := b, blacklistedAt := at, blacklistedBy := who,
                              blacklistReason := reason)), now)
  {
  }

  /** A failed screening at time t reports a cooldown for exactly the 48
      hours [t, t + 48h), unless the candidate is whitelisted; a later
      failure restarts the window from its own time (last write wins) and
      keeps every other field. */
  lemma FailCooldownWindow(entry: Option<Record>, score: Option<int>, t: Time, now: Time)
    requires now >= t
    ensures var rec := AfterFail(entry, score, t);
      && (Upsert(entry).whitelisted ==> StatusOf(Some(rec), now) == Accepted)
      && (!Upsert(entry).whitelisted ==>
            (StatusOf(Some(rec), now).CoolingDown? <==> now < t + CooldownMs))
      && (!Upsert(entry).whitelisted && now >= t + CooldownMs ==> StatusOf(Some(rec), now) == Open)
    ensures forall s2, t2 :: AfterFail(Some(AfterFail(entry, score, t)), s2, t2) == AfterFail(entry, s2, t2)
  {
  }

  /** Submit is refused exactly for a submitted document: an active cooldown
      or a blacklist does not block it. */
  lemma SubmitIgnoresCooldownAndBlacklist(rec: Record, now: Time)
    requires !rec.submitted
    ensures !IsDuplicate(Some(rec))
    ensures CooldownActive(rec, now) ==> StatusOf(Some(rec), now).CoolingDown? || rec.whitelisted
  {
  }

  /** A submission right after a failed screening, inside the 48-hour
      window, is accepted: the cooldown it overwrites was in force, the
      duplicate check lets it through, and `failedAt` and `score` survive it. */
  lemma FailThenSubmitAccepted(entry: Option<Record>, score: Option<int>, form: Form, t: Time)
    requires !Upsert(entry).whitelisted
    ensures var failed := AfterFail(entry, score, t);
      && StatusOf(Some(failed), t) == CoolingDown(t)
      && !IsDuplicate(Some(failed))
      && var rec := AfterSubmit(Some(failed), form, t);
         rec.submitted && rec.cooldownUntil == None && rec.failedAt == Some(t) && rec.score == score
  {
  }

  /** A successful submission is reported as pending (or accepted) at any
      time, blocks a second submission, and clears the cooldown. */
  lemma SubmitThenStatus(entry: Option<Record>, form: Form, t: Time, now: Time)
    ensures var rec := AfterSubmit(entry, form, t);
      && StatusOf(Some(rec), now) == (if rec.whitelisted then Accepted else Pending)
      && IsDuplicate(Some(rec))
      && !CooldownActive(rec, now)
  {
  }

  /** Once submitted, only a failed screening reopens submission: every other
      write keeps `submitted`. */
  lemma OnlyFailReopens(rec: Record, reason: string, staff: string, now: Time, ch: Id, score: Option<int>)
    ensures AfterBlacklist(Some(rec), reason, staff, now).submitted == rec.submitted
    ensures AfterUnblacklist(rec).submitted == rec.submitted
    ensures AfterWebWhitelist(Some(rec), now).submitted == rec.submitted
    ensures AfterSlashWhitelist(rec, staff, now).submitted == rec.submitted
    ensures AfterClose(rec).submitted == rec.submitted
    ensures WithTicket(rec, ch).submitted == rec.submitted
    ensures !AfterFail(Some(rec), score, now).submitted
  {
  }

  /** A closed ticket stays closed under every write except the one that
      stores a newly created channel. */
  lemma ClosedStaysClosed(rec: Record, reason: string, staff: string, now: Time, form: Form, score: Option<int>)
    requires rec.ticketClosed
    ensures AfterFail(Some(rec), score, now).ticketClosed
    ensures AfterSubmit(Some(rec), form, now).ticketClosed
    ensures AfterBlacklist(Some(rec), reason, staff, now).ticketClosed
    ensures AfterUnblacklist(rec).ticketClosed
    ensures AfterWebWhitelist(Some(rec), now).ticketClosed
    ensures AfterSlashWhitelist(rec, staff, now).ticketClosed
    ensures AfterClose(rec).ticketClosed
  {
  }

  predicate BothFlags(rec: Record) {
    rec.whitelisted && rec.blacklisted
  }

  /** Each web decision and the /blwhitelist command leave a document that is
      not both whitelisted and blacklisted. */
  lemma DecisionsExclusive(entry: Option<Record>, rec: Record, reason: string, staff: string, now: Time)
    ensures !BothFlags(AfterBlacklist(entry, reason, staff, now))
    ensures !BothFlags(AfterWebWhitelist(entry, now))
    ensures !BothFlags(AfterUnblacklist(rec))
  {
  }

  /** The /addwhitelist command does not clear `blacklisted`: a candidate
      who submitted and was then blacklisted ends up with both flags set. */
  lemma SlashWhitelistKeepsBlacklist(form: Form, t1: Time, t2: Time, t3: Time, staff: string)
    ensures var submitted := AfterSubmit(None, form, t1);
      var banned := AfterBlacklist(Some(submitted), DefaultReason, staff, t2);
      && banned.submitted && !banned.whitelisted
      && BothFlags(AfterSlashWhitelist(banned, staff, t3))
      && StatusOf(Some(AfterSlashWhitelist(banned, staff, t3)), t3) == Accepted
  {
  }

  /** Unblacklisting after a submission and a blacklist leaves neither flag
      set and grants nothing back. */
  lemma SubmitBlacklistUnblacklist(form: Form, t1: Time, t2: Time, reason: string, staff: string)
    ensures var rec := AfterUnblacklist(AfterBlacklist(Some(AfterSubmit(None, form, t1)), reason, staff, t2));
      !rec.whitelisted && !rec.blacklisted && rec.submitted && rec.blacklistReason == None
  {
  }
}
