# Whitelist lifecycle and ticket relay — a Dafny model

This project models the whitelist core of the District WL bot and a few pure
helpers of its public site, and proves properties about them.

The bot side (`bot/bot.js`):

- **The `whitelist` collection.** Each document is a candidate's record.
  The web routes under `/api/whitelist` use it. The `status` route only
  reads it. The `fail`, `submit`, `bl`, `unbl` and `addwl` routes write
  it. So do the `/addwhitelist` and `/blwhitelist` commands and the
  close-ticket button.
  `Lifecycle.Record` is one document. `Lifecycle.After*` says what each
  `updateOne` does to it. `Bot.WhitelistBot` holds the collection as a
  `map` field, next to the in-memory `ticketChannelCache`. Its methods are
  the handlers, run one at a time.
- **Role synchronisation** (`applyRoles`, `Roles`). Role calls run one
  after another, and any of them may fail on its own.
- **The ticket channel.** Submit builds the channel's name, the close
  button builds a custom id, and the relay filter and the button handler
  read them back (`Tickets`).
- **`getTicketChannel` and the `MessageCreate` relay.** These forward
  messages between a candidate's DMs and the staff ticket.
- **The `/listadmin` reply** (`AdminList`): the page count, the page
  slices and the navigation buttons.

The site side (`assets/js/script.js`, module `Site`):

- the API base URL;
- `twitchLogin` and `twitchPreviewURL`;
- the news ordering and the saved drag-and-drop order;
- the live map and the live-first ordering of streamer cards, cut to six;
- `protectedPageUrl` with `encodeURIComponent`.

`Array.prototype.sort` must be stable, so it is modelled as the stable
insertion sort in `Sorting`.

## How the outside world enters

- **Platform calls are outcome parameters** when their outcome changes the
  store, the ticket cache, the roles or the handler's reply. The notices
  and DMs whose errors are swallowed are left out (see "## Left out"):
  - `RoleEnv` says whether the guild is cached, which member the fetch
    returns, and which role calls fail.
  - `TicketEnv` says whether channel creation, the post into the channel
    and the confirmation DM work.
  - The `known` and `fetchable` sets say which channels the client has
    cached or can fetch. A fetch answers from the cache first, so every
    known channel is fetchable.
  - `deferred` says whether the interaction could be deferred.
- **Time is `now`.** The clock is a millisecond integer passed as `now`.
- **`new URL`** is a `ParsedUrl` parameter: None when the URL does not
  parse.
- **`checkTwitchLive`** is the `online` function.
- **Unset values.** An unset environment variable and a falsy request
  field are both `""`.
- **`$unset`** is written as `false` for a flag and `None` for a stamp.

## Where the documented behaviour and the code differ

The model follows the code.

- **Submit does not check the cooldown.** The only refusal is a record
  that is already submitted (`bot/bot.js:1131-1132`). A submission inside
  the 48-hour window after a failed screening is accepted.
  `Lifecycle.FailThenSubmitAccepted` shows this.
- **Submit does not clear `failedAt` or `score`.** It clears only
  `cooldownUntil`.
- **`/addwhitelist` does not clear `blacklisted`** (`bot/bot.js:692`). A
  submitted candidate who was blacklisted and is then whitelisted by the
  command holds both flags. `Lifecycle.SlashWhitelistKeepsBlacklist`
  exhibits this. The web route `addwl` and both blacklist paths do keep
  the flags exclusive (`Lifecycle.DecisionsExclusive`).
- **`ticketChannelId` stays after a ticket is closed.** Close sets
  `ticketClosed`. A new submission keeps the old id until a new channel
  is stored.
- **The status read never reports a blacklist.** A blacklisted,
  submitted record reads as pending.

## Model

| member | source | states |
|---|---|---|
| Roles.ApplyRoles | bot/bot.js:55-78 | Succeeds exactly when the guild is cached and the member fetch works. The member's roles then become `Applied(old roles)`: every remove is tried, then every add, and `""` ids are skipped. Otherwise the roles are unchanged. The two loops are proved against the specification functions. |
| Roles.AfterRemovesClosedForm | bot/bot.js:64-67 | The remove loop takes away exactly the named roles whose call did not fail. |
| Roles.AfterAddsClosedForm | bot/bot.js:68-71 | The add loop adds exactly the named roles whose call did not fail. |
| Roles.AppliedWithFailures | bot/bot.js:63-71 | Even with failing calls: every successful add is held, and no role outside the old roles and the adds appears. Every old role outside the removes is kept. |
| Roles.AppliedNoFailure | bot/bot.js:63-71 | With no failure the result is (roles minus removes) plus adds. |
| Roles.ApplyIdempotent | bot/bot.js:55-78 | Applying the same role change twice gives the same roles as once. |
| Roles.AddWinsOverRemove | bot/bot.js:63-71 | A role both removed and added ends up held, because adds run after removes. |
| Bot.DecisionRoles | bot/bot.js:1186-1250 | With distinct configured roles: blacklisting leaves the blacklist role and neither the whitelist nor the candidate role. Whitelisting is the mirror image. Unblacklisting only drops the blacklist role. Submit only adds the candidate role. |
| Lifecycle.ReasonOrDefault | bot/bot.js:1196 | An empty reason becomes `Aucune raison precisee`, and a given reason is kept. |
| Lifecycle.StatusPrecedence | bot/bot.js:1100-1111 | Whitelisted is reported before submitted, and submitted before a cooldown. A cooldown is reported exactly while `cooldownUntil` is in the future. The blacklist fields never change the answer. |
| Lifecycle.FailCooldownWindow | bot/bot.js:1114-1124 | After a failure at t, a non-whitelisted candidate reads as cooling down exactly for now in [t, t+48h) and as open from t+48h. A second failure overwrites the first (last write wins). |
| Lifecycle.SubmitIgnoresCooldownAndBlacklist | bot/bot.js:1127-1132 | A record that is not submitted passes the duplicate check, whatever its cooldown or blacklist. |
| Lifecycle.FailThenSubmitAccepted | bot/bot.js:1114-1138 | A failure, then a submission at the same instant, is accepted. It clears only `cooldownUntil`, and keeps `failedAt` and `score`. |
| Lifecycle.SubmitThenStatus | bot/bot.js:1134-1138 | After a submission the status is pending, or accepted if already whitelisted, at any time. A second submission is a duplicate, and no cooldown is active. |
| Lifecycle.OnlyFailReopens | bot/bot.js:1114-1124 | Every write except a failed screening keeps `submitted`. The failure clears it. |
| Lifecycle.ClosedStaysClosed | bot/bot.js:1158 | Only storing a newly created channel reopens a closed ticket. |
| Lifecycle.DecisionsExclusive | bot/bot.js:1193-1250 | The web blacklist, the command blacklist, the web whitelist and unblacklisting each leave a record that is not both whitelisted and blacklisted. |
| Lifecycle.SlashWhitelistKeepsBlacklist | bot/bot.js:692 | Submit, then blacklist, then `/addwhitelist` leaves both flags set, and the status reads accepted. |
| Lifecycle.SubmitBlacklistUnblacklist | bot/bot.js:1228-1237 | Submit, then blacklist, then unblacklist leaves neither flag and no reason. |
| Bot.WhitelistBot.Status | bot/bot.js:1100-1111 | A missing id gives 400. Otherwise the answer is the status derived from the stored record. |
| Bot.WhitelistBot.Fail | bot/bot.js:1114-1124 | 400 for a missing id. Otherwise the upserted record gets the score, `failedAt = now`, a cooldown of 48 hours and `submitted = false`, and nothing else in the store changes. The cache stays coherent. |
| Bot.WhitelistBot.Submit | bot/bot.js:1127-1189 | 400 for a missing id or pseudo, and 409 for a submitted record; neither changes anything. Otherwise 201 whatever the platform did. The application is written. With a cached guild and a configured category, a created channel is stored on the record and cached; otherwise no ticket exists. The confirmation DM counts as sent only if the channel was created and the post into it worked, or when no ticket was attempted. The candidate role is applied. The channel asked for is named `ChannelName(pseudo, id)`, starts with `wl-` and sits under the configured category. The posted close button carries `CloseTicketCustomId(id)`, which the button handler parses back to the id. |
| Bot.WhitelistBot.WebBlacklist | bot/bot.js:1193-1225 | 400 for a missing id. Otherwise an upsert that sets the blacklist with the default reason and `admin-web`, and clears `whitelisted`. The blacklist roles are applied. |
| Bot.WhitelistBot.WebUnblacklist | bot/bot.js:1228-1237 | 400 for a missing id. The blacklist fields are removed only when a record exists, since there is no upsert. Only the blacklist role is removed. |
| Bot.WhitelistBot.WebWhitelist | bot/bot.js:1240-1275 | 400 for a missing id. Otherwise an upsert that sets the whitelist, stamped `admin-web`, and clears `blacklisted`; no submitted record is needed. The whitelist roles are applied. |
| Bot.WhitelistBot.SlashWhitelist | bot/bot.js:681-717 | An interaction that is not deferred does nothing. With no submitted record the reply is not found, and an already whitelisted record is refused; neither writes. Otherwise it sets `whitelisted` with the staff tag, keeps `blacklisted`, and applies the whitelist roles. |
| Bot.WhitelistBot.SlashBlacklist | bot/bot.js:720-754 | An interaction that is not deferred does nothing. Otherwise it does the same upsert and roles as the web blacklist, stamped with the staff tag. |
| Bot.WhitelistBot.CloseTicket | bot/bot.js:403-431 | Only `close_ticket:` buttons act. The parsed id's record gets `ticketClosed`, with no upsert, and its cache entry is dropped. |
| Bot.WhitelistBot.GetTicketChannel | bot/bot.js:580-596 | A cached channel still known to the client is returned. A stale cache entry is evicted. Otherwise the submitted record's channel is fetched and cached again. A returned channel is always the record's channel. The result is `TicketLookup` and the new cache `CacheAfterLookup` of the old cache. |
| Bot.WhitelistBot.TicketLookup | bot/bot.js:583-595 | The channel resolved: the cached one while the client knows it, otherwise the submitted record's channel when a fetch resolves it; a channel not from the cache is always the stored one and fetchable. |
| Bot.WhitelistBot.CacheAfterLookup | bot/bot.js:583-595 | Only the candidate's entry can change: it is present afterwards exactly when a channel was resolved, and every other entry is kept. |
| Bot.WhitelistBot.RelayMessage | bot/bot.js:757-795 | Bot messages are never relayed. A DM is forwarded to the ticket exactly when the author's submitted, unclosed record has a channel that is cached-and-known or fetchable. A staff message in a `wl-` channel of the category is forwarded to the candidate whose unclosed, submitted record owns the channel, unless the bot wrote it. The store is unchanged. On the DM branch with an open ticket the cache is `CacheAfterLookup` of the old one and the relay goes to `TicketLookup`'s channel; on every other branch the cache is unchanged. |
| Bot.WhitelistBot.CreatedTicketsAreRelayed | bot/bot.js:1145-1150 | A message in the channel submit requests for a candidate, with its built name under the category, always passes the relay's ticket filter. |
| Tickets.SlugChars | bot/bot.js:1145 | The slug of any pseudo is made of `[a-z0-9-]` and is at least as long as the pseudo. |
| Tickets.ChannelNameShape | bot/bot.js:1145 | The name starts with `wl-`. It holds at most 20 slug units, then `-`, then the last four units of the id. It is at most 28 long. |
| Tickets.ChannelNameKeepsPlainPseudo | bot/bot.js:1145 | A lower-case alphanumeric pseudo of up to 20 characters appears in the name unchanged. |
| Lifecycle.StatusOf | bot/bot.js:1103-1110 | The status read: open for no record, then accepted, pending, a cooldown while `cooldownUntil` is later than now (reporting `failedAt`, or now when it is missing or zero), otherwise open. |
| Lifecycle.IsDuplicate | bot/bot.js:1131-1132 | Submit's duplicate check: a record exists and is submitted. |
| Lifecycle.AfterFail | bot/bot.js:1116-1122 | The fail upsert: score, `failedAt = now`, `cooldownUntil = now + 48h`, `submitted = false`; every other field kept. |
| Lifecycle.AfterSubmit | bot/bot.js:1135-1139 | The submit upsert: the form, `submitted`, `submittedAt = now`, `cooldownUntil` cleared; every other field kept. |
| Lifecycle.WithTicket | bot/bot.js:1158 | Stores the created channel and reopens the ticket. |
| Lifecycle.AfterBlacklist | bot/bot.js:1200-1202 | The blacklist upsert: the flag, stamp, staff and reason set, `whitelisted` cleared. |
| Lifecycle.AfterUnblacklist | bot/bot.js:1233 | The `$unset` of the four blacklist fields. |
| Lifecycle.AfterWebWhitelist | bot/bot.js:1246-1248 | The web whitelist upsert: the flag, stamp and `admin-web` set, `blacklisted` cleared. |
| Lifecycle.AfterSlashWhitelist | bot/bot.js:692 | The command's whitelist write: the flag, stamp and staff tag set, nothing else. |
| Lifecycle.AfterClose | bot/bot.js:415 | The close button's write: `ticketClosed` set. |
| Tickets.ChannelName | bot/bot.js:1145 | `wl-`, the lower-cased pseudo (or `candidat`) with every character outside `[a-z0-9]` turned into `-`, cut to 20 units, then `-` and the last four characters of the id. |
| Tickets.ParseCloseTicket | bot/bot.js:403-404 | A custom id with the `close_ticket:` prefix gives `split(':')[1]`; any other gives no close request. |
| AdminList.NavFor | bot/bot.js:570-575 | The buttons target `page - 1` and `page + 1`; previous is disabled on page 0, next from the last page on. |
| AdminList.ListAdmins | bot/bot.js:461-469 | The text reply for no admins; otherwise the first page's lines, its footer, and buttons only when there is more than one page. |
| Site.TwitchLogin | assets/js/script.js:213-217 | Null for an empty URL; the first path segment, lower-cased, of a URL that parses on a `twitch.tv` host; otherwise the lower-cased capture of the `twitch.tv/` pattern, or null. |
| Site.TwitchPreviewUrl | assets/js/script.js:218 | The Twitch preview image URL with the lower-cased login. |
| Site.NewsCmp | assets/js/script.js:188-192 | The news comparator: pinned first, then featured, then by `order`, a missing one counting as 0. |
| Site.Cards | assets/js/script.js:248-250 | The streamers sorted live first, cut to six. |
| Site.EncodeUriComponent | assets/js/script.js:516 | Unreserved characters kept, every other character written as the `%XX` escapes of its UTF-8 bytes, in upper-case hex. |
| Site.ProtectedPageUrl | assets/js/script.js:512-517 | The page, prefixed by `pages/` unless the current path includes `/pages/`, then `?discord_id=` and the encoded id when a user is stored. |
| Common.BeforeSep | bot/bot.js:404 | `split(sep)[0]` is the prefix of its input up to the first separator, or the whole input when it has none; used with `:` for the close button and with `/` for the Twitch path. |
| Tickets.CloseTicketRoundTrip | bot/bot.js:1164 | Parsing the close button built for an id without `:` gives that id back. |
| Tickets.ParseCloseTicketShape | bot/bot.js:403-404 | A custom id is a close request exactly when it has the prefix, and the id read back has no colon. |
| AdminList.PageCount | bot/bot.js:464 | `ceil(n / size)`: zero exactly for no admins, and otherwise the least number of pages that holds n. |
| AdminList.PageLines | bot/bot.js:564-568 | A page holds the JavaScript slice of the list, clamped at its end, and line i is numbered `page*size + i + 1`. |
| AdminList.AdminOnItsPage | bot/bot.js:564-568 | The admin at position k is line `k mod size` of page `k div size`, numbered k+1, and that page exists. |
| AdminList.PagesInRange | bot/bot.js:564-568 | A page is non-empty exactly when its number is below the page count. |
| AdminList.NavStaysInRange | bot/bot.js:570-575 | On an existing page, an enabled button targets an existing page. Previous is disabled exactly on the first page, next exactly on the last. |
| AdminList.ListAdminsShape | bot/bot.js:461-469 | No admins gives the text reply. Otherwise the first page has up to ten lines, numbered from 1. Buttons appear exactly when there are more than ten admins, with previous disabled and next enabled. |
| Site.ApiBase | assets/js/script.js:5-7 | Without a configured URL the base is the local server. Otherwise it is the configured URL with at most one trailing slash removed. |
| Site.MatchAtLeftmost | assets/js/script.js:216 | The regex match starts where `twitch.tv/` is followed by a word character, and at no earlier position. With no match there is no such position anywhere. |
| Site.RegexLoginSound | assets/js/script.js:216 | There is a capture exactly when there is a match. The capture is non-empty and made of word characters. It sits right after the leftmost `twitch.tv/`, and the match is greedy: no word character follows it. |
| Site.TwitchLoginFromText | assets/js/script.js:216 | An unparseable `twitch.tv/<login>` URL gives the login, lower-cased. |
| Site.TwitchLoginFromPath | assets/js/script.js:215 | A parsed Twitch URL whose path is `/<login>` or `/<login>/...` gives the login, lower-cased. |
| Site.TwitchLoginLowerCase | assets/js/script.js:213-217 | An empty URL gives no login, and no login holds an upper-case ASCII letter. |
| Site.PreviewOfLogin | assets/js/script.js:218 | The preview URL of a login taken from a URL embeds that login unchanged. |
| Sorting.SortCorrect | assets/js/script.js:188-192 | With a total comparator the stable sort returns its input reordered, in order. |
| Sorting.SortKeepsSorted | assets/js/script.js:188-192 | A list already in order is returned as it is. |
| Sorting.SortStable | assets/js/script.js:188-192 | The sort is stable: with a comparator that ties elements of equal key, the elements of each key keep their input order. |
| Site.SortNewsStable | assets/js/script.js:188-192 | News with the same flags and the same order are shown in the order the API sent them. |
| Site.NewsCmpIsKeyOrder | assets/js/script.js:188-192 | The news comparator orders by the key (not pinned, not featured, order), with a missing order counting as 0, in both directions. |
| Site.NewsCmpConsistent | assets/js/script.js:188-192 | The news comparator is total and transitive. |
| Site.SortNewsOrder | assets/js/script.js:188-192 | The sorted news are a permutation. Pinned items come first, then featured items, then items by ascending order. |
| Site.SaveOrder | assets/js/script.js:371-376 | Nothing is saved for a list other than news. Otherwise there is one entry per item, in its current position, numbered from 0. |
| Site.DraggedOrderShown | assets/js/script.js:371-376 | For a drag list mixing every flag group, once each item is saved with its position as `order`, any two news of the same pinned and featured flags are shown in strictly increasing saved order, so in their dragged order. |
| Site.BuildLiveMap | assets/js/script.js:241-245 | The map's keys are exactly the streamers' ids. Each entry holds the live status of the last streamer with that id; an empty or missing login counts as offline. |
| Site.SortIsLiveThenOffline | assets/js/script.js:248 | The live-first sort gives the live streamers in list order, then the offline ones in list order. |
| Site.CardsShape | assets/js/script.js:248-250 | At most six cards. With six or more live streamers the cards are the first six of them. Otherwise every live streamer comes first. |
| Site.EncodedIsSafe | assets/js/script.js:516 | The output of `encodeURIComponent` holds only unreserved characters, `%` and upper-case hex digits. |
| Site.EncodeKeepsUnreserved | assets/js/script.js:516 | A value made of unreserved characters is not changed. |
| Site.ProtectedPageUrlShape | assets/js/script.js:512-517 | The URL is the page, prefixed by `pages/` unless the current path is under `/pages/`. With no session user there is no query. Otherwise `?discord_id=` and the encoded id follow, and the encoded id holds no `&`, `=`, `#` or `?` that could end the parameter. |
| Site.ProtectedPageUrlWithSnowflake | assets/js/script.js:512-517 | A numeric id appears in the query unchanged. |

## Left out

- **Discord, MongoDB, HTTP and `fetch` plumbing.** A call's outcome is a
  parameter only where it changes the store, the cache, the roles or the
  reply. The text of embeds, DMs and logs is not modelled. DMs appear only
  as the `confirmed` result of submit.
- **Notices and DMs whose failure changes nothing.** Each of these is
  caught or comes after every write, so it is not modelled:
  - the close button's `deferUpdate`, its notice in the ticket and its DM
    to the candidate (`bot/bot.js:406-427`);
  - the DM of `/addwhitelist` (`bot/bot.js:696-714`) and of
    `/blwhitelist` (`bot/bot.js:736-751`);
  - the DMs of the web `bl` (`bot/bot.js:1206-1223`) and `addwl`
    (`bot/bot.js:1252-1273`) routes;
  - the `editReply` of both commands.
- Tickets.ChannelNameShape: `LastN` takes the id's last four characters,
  while `slice(-4)` takes its last four UTF-16 units. The two differ only
  for an id holding characters outside the Basic Multilingual Plane. A
  snowflake is ASCII digits, so they agree on real ids.
- Bot.WhitelistBot.RelayMessage: returns where a message is addressed,
  not whether it arrived. The send into the ticket swallows its error
  (`bot/bot.js:773`) and so does the DM to the candidate
  (`bot/bot.js:782-793`); neither outcome is a parameter, and the relay
  changes no state either way.
- Bot.WhitelistBot.SlashWhitelist: the already-whitelisted branch builds
  its embed with an `AMBER` colour that is never defined, so it throws
  instead of replying. The model answers `AlreadyWhitelisted`. Both paths
  leave the store and the roles untouched.
- **Concurrency.** Handlers run one at a time. The duplicate check and
  the write of submit are two separate store calls, so two concurrent
  submissions can both pass; the model does not capture this.
- **The delayed channel deletion.** The close button deletes the channel
  after 5 seconds. Only `ticketClosed` and the cache eviction are
  modelled.
- **`.trim()` of the command's id option.** The model receives the id
  already trimmed.
- **The `...body` spread of submit.** The form is modelled as pseudo,
  avatar and answers. The spread can write any other field of the record;
  the model does not capture that.
- **A store write that throws.** A failing write of the channel id,
  inside submit's try block, is not modelled.
- **Unicode in `toLowerCase`.** `Tickets.SlugOf` handles the cases that
  change the slug: ASCII letters, U+0130, the Kelvin sign, and characters
  outside the Basic Multilingual Plane. The Twitch login is lower-cased
  for ASCII only, because URL paths and the regex capture are ASCII.
- **`new URL` itself** is a parameter.
- **The `online` check.** `checkTwitchLive` and its two HTTP back-ends are
  the `online` function.
- **Types of ids and orders.** `parseInt` of `data-id` is taken as
  already done, so ids are integers. `order` is an integer or missing.
- **The `admin_page:` buttons have no handler** in the bot, so only the
  first page is ever sent. `AdminList.PageLines` and `NavFor` model the
  helpers for any page.
- **The rest of the repository is not part of this model:**
  - the Twitch monitor;
  - reminders;
  - the news, streamer and admin CRUD routes;
  - OAuth;
  - the vote claims;
  - DOM rendering and animation;
  - `bot/migrate.js`.
