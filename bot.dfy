/** The whitelist handlers of the bot process: the web routes under
    /api/whitelist, the /addwhitelist and /blwhitelist commands, the close
    button, the ticket-channel cache with `getTicketChannel`, and the relay of
    messages between a candidate's DMs and the staff ticket. The handlers run
    one at a time; every platform call is an outcome parameter. */
module Bot {
  import opened Common
  import opened Roles
  import opened Lifecycle
  import opened Tickets

  /** The environment variables the handlers read; an unset one is "". */
  datatype Config = Config(wlRole: RoleId, candidateRole: RoleId, blRole: RoleId, categoryId: Id)

  /** HTTP status of a whitelist route: 200, 201, 400, 409. */
  datatype Reply = Ok | Created | BadRequest | Conflict

  /** The slash command's reply; Expired is an interaction that could not be
      deferred, where the handler returns without doing anything. */
  datatype SlashReply = Expired | NotFound | AlreadyWhitelisted | Whitelisted | Blacklisted

  /** What the platform does inside one `applyRoles` call: whether the guild
      is in the client's cache, the member the fetch gives (null when it
      fails), and which role calls fail. */
  datatype RoleEnv = RoleEnv(guildFound: bool, member: Member?, outcomes: Outcomes)

  /** What the platform does while submit provisions the ticket: whether the
      guild is cached, the id of the created channel (None when creation
      throws), whether posting the application into it works, and whether the
      confirmation DM reaches the candidate. */
  datatype TicketEnv = TicketEnv(guildFound: bool, created: Option<Id>, postOk: bool, dmOk: bool)

  /** An incoming message: author, whether it is a bot, whether it was sent
      in a guild, whether its channel has a known type, and the channel's id,
      parent category and name. */
  datatype Message = Message(
    authorId: Id, authorIsBot: bool, inGuild: bool, channelTyped: bool,
    channelId: Id, parentId: Option<Id>, channelName: string)

  /** The channel submit asks the platform to create: its name and the
      category it goes under. */
  datatype ChannelRequest = ChannelRequest(name: string, parent: Id)

  /** The ticket channel requested for a candidate. */
  function TicketRequest(c: Config, id: Id, pseudo: string): ChannelRequest {
    ChannelRequest(ChannelName(pseudo, id), c.categoryId)
  }

  /** Where a message is forwarded to, if anywhere. */
  datatype Relay = NotRelayed | ToTicket(channel: Id) | ToCandidate(candidate: Id)

  function SubmitRoles(c: Config): RoleSpec { RoleSpec([c.candidateRole], []) }
  function BlacklistRoles(c: Config): RoleSpec { RoleSpec([c.blRole], [c.wlRole, c.candidateRole]) }
  function WhitelistRoles(c: Config): RoleSpec { RoleSpec([c.wlRole], [c.candidateRole, c.blRole]) }
  function UnblacklistRoles(c: Config): RoleSpec { RoleSpec([], [c.blRole]) }

  /** Three configured, distinct roles. */
  predicate DistinctRoles(c: Config) {
    c.wlRole != "" && c.candidateRole != "" && c.blRole != ""
    && c.wlRole != c.candidateRole && c.wlRole != c.blRole && c.candidateRole != c.blRole
  }

  /** With every call succeeding, a blacklisted member holds the blacklist
      role and neither the whitelist nor the candidate role, a whitelisted
      member the reverse, and unblacklisting only drops the blacklist role. */
  lemma DecisionRoles(c: Config, r: set<RoleId>)
    requires DistinctRoles(c)
    ensures var after := Applied(r, BlacklistRoles(c), AllSucceed);
      c.blRole in after && c.wlRole !in after && c.candidateRole !in after
      && after - {c.blRole} == r - {c.blRole, c.wlRole, c.candidateRole}
    ensures var after := Applied(r, WhitelistRoles(c), AllSucceed);
      c.wlRole in after && c.blRole !in after && c.candidateRole !in after
      && after - {c.wlRole} == r - {c.blRole, c.wlRole, c.candidateRole}
    ensures Applied(r, UnblacklistRoles(c), AllSucceed) == r - {c.blRole}
    ensures Applied(r, SubmitRoles(c), AllSucceed) == r + {c.candidateRole}
  {
    AppliedNoFailure(r, BlacklistRoles(c));
    AppliedNoFailure(r, WhitelistRoles(c));
    AppliedNoFailure(r, UnblacklistRoles(c));
    AppliedNoFailure(r, SubmitRoles(c));
    assert Named([c.blRole]) == {c.blRole};
    assert Named([c.wlRole]) == {c.wlRole};
    assert Named([c.candidateRole]) == {c.candidateRole};
    assert Named([]) == {};
    assert Named([c.wlRole, c.candidateRole]) == {c.wlRole, c.candidateRole};
    assert Named([c.candidateRole, c.blRole]) == {c.candidateRole, c.blRole};
  }

  /** The record after submit's writes, given the channel it created, if any. */
  function Ticketed(rec: Record, ticket: Option<Id>): Record {
    if ticket.Some? then WithTicket(rec, ticket.value) else rec
  }

  class WhitelistBot {
    const config: Config
    /** The `whitelist` collection, keyed by its unique `discordId` index. */
    var records: map<Id, Record>
    /** `ticketChannelCache`: candidate id to ticket channel id. */
    var ticketCache: map<Id, Id>

    /** The cache only ever repeats what the store says. */
    ghost predicate Valid()
      reads this
    {
      forall id :: id in ticketCache ==>
        id in records && records[id].ticketChannelId == Some(ticketCache[id])
    }

    function Lookup(id: Id): Option<Record>
      reads this
    {
      if id in records then Some(records[id]) else None
    }

    /** `findOne({ discordId, submitted: true })` finds a record with a ticket
        that has not been closed. */
    predicate OpenTicket(id: Id)
      reads this
    {
      id in records && records[id].submitted && records[id].ticketChannelId.Some?
      && !records[id].ticketClosed
    }

    /** `findOne({ ticketChannelId: channel, submitted: true })` matches `id`. */
    predicate OwnsTicket(id: Id, channel: Id)
      reads this
    {
      id in records && records[id].submitted && records[id].ticketChannelId == Some(channel)
    }

    constructor (config: Config)
      ensures Valid() && this.config == config
      ensures records == map[] && ticketCache == map[]
    {
      this.config := config;
      records := map[];
      ticketCache := map[];
    }

    /** GET /api/whitelist/status; None is the 400 for a missing id. */
    method Status(id: Id, now: Time) returns (reply: Option<Status>)
      ensures id == "" ==> reply == None
      ensures id != "" ==> reply == Some(StatusOf(Lookup(id), now))
    {
      if id == "" {
        return None;
      }
      reply := Some(StatusOf(Lookup(id), now));
    }

    /** POST /api/whitelist/fail */
    method Fail(id: Id, score: Option<int>, now: Time) returns (reply: Reply)
      requires Valid()
      modifies this`records
      ensures Valid()
      ensures reply == if id == "" then BadRequest else Ok
      ensures records == if id == "" then old(records)
                         else old(records)[id := AfterFail(old(Lookup(id)), score, now)]
    {
      if id == "" {
        return BadRequest;
      }
      records := records[id := AfterFail(Lookup(id), score, now)];
      reply := Ok;
    }

    /** POST /api/whitelist/submit: validate, refuse a duplicate, write the
        application, provision the ticket (store and cache the channel before
        posting into it), send the confirmation DM, grant the candidate role,
        and answer 201 whatever the platform calls did. `request` is the
        channel asked for, `closeButton` the custom id of the close button
        on the posted application. */
    method Submit(id: Id, form: Form, now: Time, env: TicketEnv, roleEnv: RoleEnv)
      returns (reply: Reply, ticket: Option<Id>, confirmed: bool,
               request: Option<ChannelRequest>, closeButton: Option<string>)
      requires Valid()
      modifies this`records, this`ticketCache, roleEnv.member
      ensures Valid()
      ensures reply == if id == "" || form.pseudo == "" then BadRequest
                       else if IsDuplicate(old(Lookup(id))) then Conflict
                       else Created
      ensures reply != Created ==>
        && records == old(records) && ticketCache == old(ticketCache)
        && ticket == None && !confirmed && request == None && closeButton == None
        && (roleEnv.member != null ==> roleEnv.member.roles == old(roleEnv.member.roles))
      ensures reply == Created ==>
        && request == (if env.guildFound && config.categoryId != ""
                       then Some(TicketRequest(config, id, form.pseudo)) else None)
        && ticket == (if request.Some? then env.created else None)
        && closeButton == (if ticket.Some? && env.postOk then Some(CloseTicketCustomId(id)) else None)
        && records == old(records)[id := Ticketed(AfterSubmit(old(Lookup(id)), form, now), ticket)]
        && ticketCache == (if ticket.Some? then old(ticketCache)[id := ticket.value]
                           else old(ticketCache))
        && confirmed == (if env.guildFound && config.categoryId != ""
                         then env.created.Some? && env.postOk && env.dmOk
                         else env.dmOk)
        && (roleEnv.member != null ==>
              roleEnv.member.roles ==
                if roleEnv.guildFound
                then Applied(old(roleEnv.member.roles), SubmitRoles(config), roleEnv.outcomes)
                else old(roleEnv.member.roles))
      ensures request.Some? ==>
        StartsWith(request.value.name, TicketPrefix) && request.value.parent == config.categoryId
      ensures closeButton.Some? && ':' !in id ==> ParseCloseTicket(closeButton.value) == Some(id)
    {
      ticket, confirmed, request, closeButton := None, false, None, None;
      if id == "" || form.pseudo == "" {
        return BadRequest, ticket, confirmed, request, closeButton;
      }
      if IsDuplicate(Lookup(id)) {
        return Conflict, ticket, confirmed, request, closeButton;
      }
      records := records[id := AfterSubmit(Lookup(id), form, now)];
      if env.guildFound && config.categoryId != "" {
        request := Some(TicketRequest(config, id, form.pseudo));
        ChannelNameShape(form.pseudo, id);
        if env.created.Some? {
          var channel := env.created.value;
          records := records[id := WithTicket(records[id], channel)];
          ticketCache := ticketCache[id := channel];
          ticket := Some(channel);
          if env.postOk {
            closeButton := Some(CloseTicketCustomId(id));
            if ':' !in id {
              CloseTicketRoundTrip(id);
            }
          }
          // A failed post throws to the outer catch and skips the DM.
          confirmed := env.postOk && env.dmOk;
        }
      } else {
        confirmed := env.dmOk;
      }
      var _ := ApplyRoles(roleEnv.guildFound, roleEnv.member, SubmitRoles(config), roleEnv.outcomes);
      reply := Created;
    }

    /** POST /api/whitelist/bl */
    method WebBlacklist(id: Id, reason: string, now: Time, roleEnv: RoleEnv) returns (reply: Reply)
      requires Valid()
      modifies this`records, roleEnv.member
      ensures Valid()
      ensures reply == if id == "" then BadRequest else Ok
      ensures records == if id == "" then old(records)
        else old(records)[id := AfterBlacklist(old(Lookup(id)), ReasonOrDefault(reason), WebStaff, now)]
      ensures roleEnv.member != null ==>
        roleEnv.member.roles ==
          if id != "" && roleEnv.guildFound
          then Applied(old(roleEnv.member.roles), BlacklistRoles(config), roleEnv.outcomes)
          else old(roleEnv.member.roles)
    {
      if id == "" {
        return BadRequest;
      }
      var raison := ReasonOrDefault(reason);
      records := records[id := AfterBlacklist(Lookup(id), raison, WebStaff, now)];
      var _ := ApplyRoles(roleEnv.guildFound, roleEnv.member, BlacklistRoles(config), roleEnv.outcomes);
      reply := Ok;
    }

    /** POST /api/whitelist/unbl: `$unset` of the four blacklist fields,
        without upsert, then only the blacklist role is removed. */
    method WebUnblacklist(id: Id, roleEnv: RoleEnv) returns (reply: Reply)
      requires Valid()
      modifies this`records, roleEnv.member
      ensures Valid()
      ensures reply == if id == "" then BadRequest else Ok
      ensures records == if id == "" || id !in old(records) then old(records)
        else old(records)[id := AfterUnblacklist(old(records)[id])]
      ensures roleEnv.member != null ==>
        roleEnv.member.roles ==
          if id != "" && roleEnv.guildFound
          then Applied(old(roleEnv.member.roles), UnblacklistRoles(config), roleEnv.outcomes)
          else old(roleEnv.member.roles)
    {
      if id == "" {
        return BadRequest;
      }
      if id in records {
        records := records[id := AfterUnblacklist(records[id])];
      }
      var _ := ApplyRoles(roleEnv.guildFound, roleEnv.member, UnblacklistRoles(config), roleEnv.outcomes);
      reply := Ok;
    }

    /** POST /api/whitelist/addwl: an upsert, so no submitted record is needed. */
    method WebWhitelist(id: Id, now: Time, roleEnv: RoleEnv) returns (reply: Reply)
      requires Valid()
      modifies this`records, roleEnv.member
      ensures Valid()
      ensures reply == if id == "" then BadRequest else Ok
      ensures records == if id == "" then old(records)
        else old(records)[id := AfterWebWhitelist(old(Lookup(id)), now)]
      ensures roleEnv.member != null ==>
        roleEnv.member.roles ==
          if id != "" && roleEnv.guildFound
          then Applied(old(roleEnv.member.roles), WhitelistRoles(config), roleEnv.outcomes)
          else old(roleEnv.member.roles)
    {
      if id == "" {
        return BadRequest;
      }
      records := records[id := AfterWebWhitelist(Lookup(id), now)];
      var _ := ApplyRoles(roleEnv.guildFound, roleEnv.member, WhitelistRoles(config), roleEnv.outcomes);
      reply := Ok;
    }

    /** The /addwhitelist command: only a submitted record that is not yet
        whitelisted is written, and `blacklisted` is left as it was. */
    method SlashWhitelist(id: Id, staff: string, now: Time, deferred: bool, roleEnv: RoleEnv)
      returns (reply: SlashReply)
      requires Valid()
      modifies this`records, roleEnv.member
      ensures Valid()
      ensures reply == if !deferred then Expired
                       else if !(id in old(records) && old(records)[id].submitted) then NotFound
                       else if old(records)[id].whitelisted then AlreadyWhitelisted
                       else Whitelisted
      ensures reply != Whitelisted ==>
        records == old(records)
        && (roleEnv.member != null ==> roleEnv.member.roles == old(roleEnv.member.roles))
      ensures reply == Whitelisted ==>
        records == old(records)[id := AfterSlashWhitelist(old(records)[id], staff, now)]
        && (roleEnv.member != null ==>
              roleEnv.member.roles ==
                if roleEnv.guildFound
                then Applied(old(roleEnv.member.roles), WhitelistRoles(config), roleEnv.outcomes)
                else old(roleEnv.member.roles))
    {
      if !deferred {
        return Expired;
      }
      if !(id in records && records[id].submitted) {
        return NotFound;
      }
      if records[id].whitelisted {
        return AlreadyWhitelisted;
      }
      records := records[id := AfterSlashWhitelist(records[id], staff, now)];
      var _ := ApplyRoles(roleEnv.guildFound, roleEnv.member, WhitelistRoles(config), roleEnv.outcomes);
      reply := Whitelisted;
    }

    /** The /blwhitelist command: the same upsert and roles as the web route,
        stamped with the staff member's tag. */
    method SlashBlacklist(id: Id, reason: string, staff: string, now: Time, deferred: bool, roleEnv: RoleEnv)
      returns (reply: SlashReply)
      requires Valid()
      modifies this`records, roleEnv.member
      ensures Valid()
      ensures reply == if deferred then Blacklisted else Expired
      ensures records == if !deferred then old(records)
        else old(records)[id := AfterBlacklist(old(Lookup(id)), ReasonOrDefault(reason), staff, now)]
      ensures roleEnv.member != null ==>
        roleEnv.member.roles ==
          if deferred && roleEnv.guildFound
          then Applied(old(roleEnv.member.roles), BlacklistRoles(config), roleEnv.outcomes)
          else old(roleEnv.member.roles)
    {
      var raison := ReasonOrDefault(reason);
      if !deferred {
        return Expired;
      }
      records := records[id := AfterBlacklist(Lookup(id), raison, staff, now)];
      var _ := ApplyRoles(roleEnv.guildFound, roleEnv.member, BlacklistRoles(config), roleEnv.outcomes);
      reply := Blacklisted;
    }

    /** The close-ticket button: mark the ticket closed (no upsert) and drop
        the cache entry. Returns the id whose ticket was closed, or None for
        a button or interaction that is not a close request. */
    method CloseTicket(customId: string) returns (closed: Option<Id>)
      requires Valid()
      modifies this`records, this`ticketCache
      ensures Valid()
      ensures closed == ParseCloseTicket(customId)
      ensures closed.None? ==> records == old(records) && ticketCache == old(ticketCache)
      ensures closed.Some? ==>
        var id := closed.value;
        && records == (if id in old(records) then old(records)[id := AfterClose(old(records)[id])]
                       else old(records))
        && ticketCache == old(ticketCache) - {id}
    {
      closed := ParseCloseTicket(customId);
      if closed.None? {
        return;
      }
      var id := closed.value;
      if id in records {
        records := records[id := AfterClose(records[id])];
      }
      ticketCache := ticketCache - {id};
    }

    /** The channel the store gives for a candidate: that of a submitted
        record, if any. */
    function StoredTicket(id: Id): Option<Id>
      reads this
    {
      if id in records && records[id].submitted then records[id].ticketChannelId else None
    }

    /** Whether the cached channel of `id` is still known to the client. */
    predicate CacheHit(cache: map<Id, Id>, id: Id, known: set<Id>) {
      id in cache && cache[id] in known
    }

    /** The channel `getTicketChannel` resolves from cache `cache`: the
        cached one while the client knows it, else the stored one when a
        fetch resolves it. This is the definition; `GetTicketChannel` and
        `RelayMessage` state their results through it. */
    function TicketLookup(cache: map<Id, Id>, id: Id, known: set<Id>, fetchable: set<Id>): (r: Option<Id>)
      reads this
      ensures r.Some? && !CacheHit(cache, id, known) ==> r == StoredTicket(id) && r.value in fetchable
    {
      if CacheHit(cache, id, known) then Some(cache[id])
      else if StoredTicket(id).Some? && StoredTicket(id).value in fetchable then StoredTicket(id)
      else None
    }

    /** The cache `getTicketChannel` leaves: unchanged on a hit, the entry
        set to the resolved channel, or the stale entry evicted. */
    function CacheAfterLookup(cache: map<Id, Id>, id: Id, known: set<Id>, fetchable: set<Id>): (r: map<Id, Id>)
      reads this
      ensures forall other :: other != id ==>
        (other in r <==> other in cache) && (other in r ==> r[other] == cache[other])
      ensures id in r <==> TicketLookup(cache, id, known, fetchable).Some?
    {
      if CacheHit(cache, id, known) then cache
      else
        var channel := TicketLookup(cache, id, known, fetchable);
        if channel.Some? then cache[id := channel.value] else cache - {id}
    }

    /** `getTicketChannel`: a cached channel still known to the client is
        returned; a stale entry is evicted; otherwise the store's channel of a
        submitted record is fetched and, when the fetch works, cached again.
        `known` is the client's channel cache, `fetchable` the channels a
        fetch resolves; a fetch answers from the client's cache first, so
        every known channel is fetchable. */
    method GetTicketChannel(id: Id, known: set<Id>, fetchable: set<Id>) returns (channel: Option<Id>)
      requires Valid() && known <= fetchable
      modifies this`ticketCache
      ensures Valid()
      ensures channel.Some? ==> id in records && records[id].ticketChannelId == channel
      ensures channel == TicketLookup(old(ticketCache), id, known, fetchable)
      ensures ticketCache == CacheAfterLookup(old(ticketCache), id, known, fetchable)
    {
      if id in ticketCache {
        var cached := ticketCache[id];
        if cached in known {
          return Some(cached);
        }
        ticketCache := ticketCache - {id};
      }
      if !(id in records && records[id].submitted && records[id].ticketChannelId.Some?) {
        return None;
      }
      var stored := records[id].ticketChannelId.value;
      if stored !in fetchable {
        return None;
      }
      ticketCache := ticketCache[id := stored];
      channel := Some(stored);
    }

    /** Predicate of the DM branch of the relay. */
    predicate IsDirect(msg: Message) {
      !msg.inGuild && msg.channelTyped
    }

    /** Predicate of the ticket branch of the relay. */
    predicate InTicketChannel(msg: Message) {
      msg.inGuild && msg.parentId == Some(config.categoryId) && StartsWith(msg.channelName, TicketPrefix)
    }

    /** A staff message in the channel submit requested for a candidate
        (named from the candidate's pseudo and id, under the configured
        category) always takes the ticket branch of the relay. */
    lemma CreatedTicketsAreRelayed(pseudo: string, id: Id, msg: Message)
      requires msg.inGuild
      requires msg.parentId == Some(TicketRequest(config, id, pseudo).parent)
      requires msg.channelName == TicketRequest(config, id, pseudo).name
      ensures InTicketChannel(msg) && !IsDirect(msg)
    {
      ChannelNameShape(pseudo, id);
    }

    /** The `MessageCreate` relay. Bot messages are ignored. A DM goes to the
        ticket of the author's submitted, unclosed record; a message in a
        "wl-" channel of the category goes to the candidate whose submitted,
        unclosed record owns that channel, unless the bot wrote it. */
    method RelayMessage(msg: Message, botUserId: Id, known: set<Id>, fetchable: set<Id>)
      returns (relay: Relay)
      requires Valid() && known <= fetchable
      modifies this`ticketCache
      ensures Valid() && records == old(records)
      ensures msg.authorIsBot ==> relay == NotRelayed
      ensures relay.ToTicket? ==>
        IsDirect(msg) && OpenTicket(msg.authorId)
        && records[msg.authorId].ticketChannelId == Some(relay.channel)
      ensures !msg.authorIsBot && IsDirect(msg) && OpenTicket(msg.authorId) ==>
        && ticketCache == CacheAfterLookup(old(ticketCache), msg.authorId, known, fetchable)
        && relay == (match TicketLookup(old(ticketCache), msg.authorId, known, fetchable)
                     case Some(ch) => ToTicket(ch)
                     case None => NotRelayed)
      ensures !(!msg.authorIsBot && IsDirect(msg) && OpenTicket(msg.authorId)) ==>
        ticketCache == old(ticketCache)
      ensures !msg.authorIsBot && IsDirect(msg) ==>
        var t := if msg.authorId in records then records[msg.authorId].ticketChannelId else None;
        (relay.ToTicket? <==>
          OpenTicket(msg.authorId)
          && ((msg.authorId in old(ticketCache) && t.value in known) || t.value in fetchable))
      ensures relay.ToCandidate? ==>
        InTicketChannel(msg) && !IsDirect(msg) && msg.authorId != botUserId
        && OwnsTicket(relay.candidate, msg.channelId) && !records[relay.candidate].ticketClosed
      ensures !msg.authorIsBot && !IsDirect(msg) && InTicketChannel(msg) && msg.authorId != botUserId
              && (exists c :: OwnsTicket(c, msg.channelId))
              && (forall c :: OwnsTicket(c, msg.channelId) ==> !records[c].ticketClosed)
              ==> relay.ToCandidate?
    {
      if msg.authorIsBot {
        return NotRelayed;
      }
      if IsDirect(msg) {
        var author := msg.authorId;
        if !(author in records && records[author].submitted && records[author].ticketChannelId.Some?) {
          return NotRelayed;
        }
        if records[author].ticketClosed {
          return NotRelayed;
        }
        var channel := GetTicketChannel(author, known, fetchable);
        if channel.None? {
          return NotRelayed;
        }
        return ToTicket(channel.value);
      }
      if InTicketChannel(msg) {
        if !exists c | c in records.Keys :: OwnsTicket(c, msg.channelId) {
          return NotRelayed;
        }
        var owner :| owner in records.Keys && OwnsTicket(owner, msg.channelId);
        if records[owner].ticketClosed {
          return NotRelayed;
        }
        if msg.authorId == botUserId {
          return NotRelayed;
        }
        return ToCandidate(owner);
      }
      relay := NotRelayed;
    }
  }
}
