/** Helpers of the public site's script: the API base URL, the Twitch login
    and preview URL of a streamer, the news and streamer orderings, the
    drag-and-drop order the admin panel saves, and the URL of a protected
    page. */
module Site {
  import opened Common
  import opened Sorting

  // ---------------------------------------------------------------- API base

  const DefaultApi := "http://localhost:3000"

  /** `CONFIG.botServerURL.replace(/\/$/, '')` when the setting is present
      and non-empty, the local server otherwise (None: CONFIG or the field is
      missing). */
  function ApiBase(botServerURL: Option<string>): (r: string)
    ensures botServerURL.None? || botServerURL.value == "" ==> r == DefaultApi
    ensures botServerURL.Some? && botServerURL.value != "" ==>
      var u := botServerURL.value;
      (if u[|u| - 1] == '/' then r + "/" else r) == u
  {
    if botServerURL.None? || botServerURL.value == "" then DefaultApi
    else
      var u := botServerURL.value;
      if u[|u| - 1] == '/' then u[..|u| - 1] else u
  }

  // ---------------------------------------------------------------- Twitch

  /** What `new URL(url)` yields; the parse itself is the platform's. */
  datatype ParsedUrl = ParsedUrl(hostname: string, pathname: string)

  const TwitchHost := "twitch.tv"
  const TwitchPath := "twitch.tv/"

  /** `[a-zA-Z0-9_]` */
  predicate IsWordChar(c: char) { IsAsciiUpper(c) || IsAsciiLower(c) || IsDigit(c) || c == '_' }

  /** `s.replace('/', '')`: the first '/' removed, the rest kept in place. */
  function RemoveFirstSlash(s: string): (r: string)
    ensures '/' in s ==>
      |BeforeSep(s, '/')| < |s| && r == BeforeSep(s, '/') + s[|BeforeSep(s, '/')| + 1..]
    ensures '/' !in s ==> r == s
  {
    if s == [] then []
    else if s[0] == '/' then s[1..]
    else [s[0]] + RemoveFirstSlash(s[1..])
  }

  /** The longest prefix of word characters: the greedy `[a-zA-Z0-9_]+`. */
  function WordRun(s: string): (r: string)
    ensures |r| <= |s| && r == s[..|r|]
    ensures forall i :: 0 <= i < |r| ==> IsWordChar(r[i])
    ensures |r| < |s| ==> !IsWordChar(s[|r|])
  {
    if s == [] || !IsWordChar(s[0]) then [] else [s[0]] + WordRun(s[1..])
  }

  /** `/twitch\.tv\/([a-zA-Z0-9_]+)/` matches at the start of `s`. */
  predicate MatchesHere(s: string) {
    |s| > |TwitchPath| && s[..|TwitchPath|] == TwitchPath && IsWordChar(s[|TwitchPath|])
  }

  /** Where the leftmost match of the pattern starts, if anywhere. */
  function MatchAt(s: string): (r: Option<nat>)
    ensures r.Some? ==> r.value + |TwitchPath| < |s|
  {
    if s == [] then None
    else if MatchesHere(s) then Some(0)
    else
      match MatchAt(s[1..])
      case None => None
      case Some(k) => Some(k + 1)
  }

  /** The match found is the leftmost one, and none means no match. */
  lemma {:induction false} MatchAtLeftmost(s: string)
    ensures MatchAt(s).Some? ==> MatchesHere(s[MatchAt(s).value..])
    ensures MatchAt(s).Some? ==> forall j :: 0 <= j < MatchAt(s).value ==> !MatchesHere(s[j..])
    ensures MatchAt(s).None? ==> forall j :: 0 <= j < |s| ==> !MatchesHere(s[j..])
  {
    if s != [] && !MatchesHere(s) {
      MatchAtLeftmost(s[1..]);
      forall j | 0 < j <= |s| ensures s[j..] == s[1..][j - 1..] {
      }
    }
  }

  /** The capture group of the leftmost match. */
  function RegexLogin(s: string): Option<string> {
    match MatchAt(s)
    case None => None
    case Some(k) => Some(WordRun(s[k + |TwitchPath|..]))
  }

  /** The capture is a non-empty run of word characters right after the
      leftmost "twitch.tv/", and the match is greedy: no word character
      follows it. */
  lemma RegexLoginSound(s: string)
    ensures RegexLogin(s).Some? <==> MatchAt(s).Some?
    ensures RegexLogin(s).Some? ==>
      var login := RegexLogin(s).value;
      var k := MatchAt(s).value + |TwitchPath|;
      && login != []
      && k + |login| <= |s| && s[k..k + |login|] == login
      && (forall i :: 0 <= i < |login| ==> IsWordChar(login[i]))
      && (k + |login| < |s| ==> !IsWordChar(s[k + |login|]))
  {
    MatchAtLeftmost(s);
    if MatchAt(s).Some? {
      var k := MatchAt(s).value + |TwitchPath|;
      var t := s[k..];
      assert t[0] == s[k];
      var login := WordRun(t);
      assert s[k..k + |login|] == t[..|login|];
    }
  }

  /** `twitchLogin(url)`: null for an empty url; for a url that parses with
      a host containing "twitch.tv", the first path segment, lower-cased;
      otherwise the lower-cased capture of the pattern, or null. */
  function TwitchLogin(url: string, parsed: Option<ParsedUrl>): Option<string> {
    if url == "" then None
    else if parsed.Some? && Contains(parsed.value.hostname, TwitchHost) then
      Some(LowerAsciiString(BeforeSep(RemoveFirstSlash(parsed.value.pathname), '/')))
    else
      match RegexLogin(url)
      case None => None
      case Some(login) => Some(LowerAsciiString(login))
  }

  /** A url that begins "twitch.tv/" gives the login written after it,
      lower-cased. */
  lemma TwitchLoginFromText(login: string, rest: string)
    requires login != [] && forall i :: 0 <= i < |login| ==> IsWordChar(login[i])
    requires rest == [] || !IsWordChar(rest[0])
    ensures TwitchLogin(TwitchPath + (login + rest), None) == Some(LowerAsciiString(login))
  {
    RegexLoginOfText(login, rest);
  }

  lemma RegexLoginOfText(login: string, rest: string)
    requires login != [] && forall i :: 0 <= i < |login| ==> IsWordChar(login[i])
    requires rest == [] || !IsWordChar(rest[0])
    ensures RegexLogin(TwitchPath + (login + rest)) == Some(login)
  {
    var tail := login + rest;
    var url := TwitchPath + tail;
    DropPrefix(TwitchPath, tail);
    assert url[|TwitchPath|] == login[0];
    assert MatchAt(url) == Some(0);
    WordRunStops(login, rest);
  }

  lemma DropPrefix(p: string, t: string)
    ensures (p + t)[..|p|] == p && (p + t)[|p|..] == t
  {
  }

  lemma {:induction false} WordRunStops(login: string, rest: string)
    requires forall i :: 0 <= i < |login| ==> IsWordChar(login[i])
    requires rest == [] || !IsWordChar(rest[0])
    ensures WordRun(login + rest) == login
  {
    if login != [] {
      assert (login + rest)[1..] == login[1..] + rest;
      WordRunStops(login[1..], rest);
    } else {
      assert login + rest == rest;
    }
  }

  /** A parsed channel url "/<login>" or "/<login>/..." on a Twitch host
      gives its login, lower-cased. */
  lemma TwitchLoginFromPath(url: string, host: string, login: string, rest: string)
    requires url != "" && Contains(host, TwitchHost)
    requires '/' !in login
    requires rest == [] || rest[0] == '/'
    ensures TwitchLogin(url, Some(ParsedUrl(host, "/" + login + rest))) == Some(LowerAsciiString(login))
  {
    assert RemoveFirstSlash("/" + login + rest) == login + rest;
    BeforeSepStops(login, rest, '/');
  }

  /** Whatever the branch, a login never holds an upper-case ASCII letter,
      and an empty url gives none. */
  lemma TwitchLoginLowerCase(url: string, parsed: Option<ParsedUrl>)
    ensures url == "" ==> TwitchLogin(url, parsed) == None
    ensures TwitchLogin(url, parsed).Some? ==>
      forall i :: 0 <= i < |TwitchLogin(url, parsed).value| ==>
        !IsAsciiUpper(TwitchLogin(url, parsed).value[i])
  {
  }

  const PreviewPrefix := "https://static-cdn.jtvnw.net/previews-ttv/live_user_"
  const PreviewSuffix := "-1280x720.jpg"

  /** `twitchPreviewURL(login)` */
  function TwitchPreviewUrl(login: string): string {
    PreviewPrefix + LowerAsciiString(login) + PreviewSuffix
  }

  /** Lower-casing is idempotent, so a login taken from a url sits in its
      preview url unchanged. */
  lemma PreviewOfLogin(url: string, parsed: Option<ParsedUrl>)
    requires TwitchLogin(url, parsed).Some?
    ensures var login := TwitchLogin(url, parsed).value;
      TwitchPreviewUrl(login) == PreviewPrefix + login + PreviewSuffix
  {
    if parsed.Some? && Contains(parsed.value.hostname, TwitchHost) {
      LowerAsciiIdempotent(BeforeSep(RemoveFirstSlash(parsed.value.pathname), '/'));
    } else {
      LowerAsciiIdempotent(RegexLogin(url).value);
    }
  }

  // ---------------------------------------------------------------- news

  datatype News = News(id: int, pinned: bool, featured: bool, order: Option<int>)

  /** The comparator of `renderNews`; a missing `order` counts as 0. */
  function NewsCmp(a: News, b: News): int {
    if a.pinned && !b.pinned then -1
    else if !a.pinned && b.pinned then 1
    else if a.featured && !b.featured then -1
    else if !a.featured && b.featured then 1
    else a.order.GetOr(0) - b.order.GetOr(0)
  }

  /** The ordering as a key: pinned first, then featured, then by order. */
  function NewsKey(n: News): (int, int, int) {
    (if n.pinned then 0 else 1, if n.featured then 0 else 1, n.order.GetOr(0))
  }

  predicate KeyLess(x: (int, int, int), y: (int, int, int)) {
    x.0 < y.0 || (x.0 == y.0 && (x.1 < y.1 || (x.1 == y.1 && x.2 < y.2)))
  }

  /** The comparator orders news exactly as their keys do. */
  lemma NewsCmpIsKeyOrder(a: News, b: News)
    ensures NewsCmp(a, b) < 0 <==> KeyLess(NewsKey(a), NewsKey(b))
    ensures NewsCmp(a, b) == 0 <==> NewsKey(a) == NewsKey(b)
    ensures NewsCmp(a, b) > 0 <==> KeyLess(NewsKey(b), NewsKey(a))
  {
  }

  lemma NewsCmpConsistent()
    ensures Total(NewsCmp) && Transitive(NewsCmp)
  {
    forall a, b, c | NewsCmp(a, b) <= 0 && NewsCmp(b, c) <= 0
      ensures NewsCmp(a, c) <= 0
    {
      NewsCmpIsKeyOrder(a, b);
      NewsCmpIsKeyOrder(b, c);
      NewsCmpIsKeyOrder(a, c);
    }
  }

  function SortNews(news: seq<News>): seq<News> {
    Sort(NewsCmp, news)
  }

  /** The sorted news hold the same items, pinned ones first, then among
      equal pinned-ness the featured ones, then ascending order. */
  lemma SortNewsOrder(news: seq<News>, i: int, j: int)
    requires 0 <= i < j < |news|
    ensures multiset(SortNews(news)) == multiset(news)
    ensures var s := SortNews(news);
      && (s[j].pinned ==> s[i].pinned)
      && (s[i].pinned == s[j].pinned && s[j].featured ==> s[i].featured)
      && (s[i].pinned == s[j].pinned && s[i].featured == s[j].featured ==>
            s[i].order.GetOr(0) <= s[j].order.GetOr(0))
  {
    NewsCmpConsistent();
    SortCorrect(NewsCmp, news);
    var s := SortNews(news);
    assert |s| == |news| by {
      assert |multiset(s)| == |multiset(news)|;
    }
    SortedEverywhere(NewsCmp, s, i, j);
  }

  /** News that tie (same flags, same `order`, a missing one counting as 0)
      are shown in the order the API sent them. */
  lemma SortNewsStable(news: seq<News>, k: (int, int, int))
    ensures WithKey(NewsKey, k, SortNews(news)) == WithKey(NewsKey, k, news)
  {
    forall a, b | NewsKey(a) == NewsKey(b) ensures NewsCmp(a, b) == 0 {
      NewsCmpIsKeyOrder(a, b);
    }
    SortStable(NewsCmp, NewsKey, k, news);
  }

  // ---------------------------------------------------------------- saved order

  datatype OrderEntry = OrderEntry(id: int, order: int)

  /** `saveOrder(list, type)`: only for the news list, one entry per item in
      its current position, numbered from 0. */
  method SaveOrder(kind: string, ids: seq<int>) returns (orders: Option<seq<OrderEntry>>)
    ensures kind != "news" <==> orders.None?
    ensures orders.Some? ==>
      |orders.value| == |ids|
      && forall i :: 0 <= i < |ids| ==> orders.value[i] == OrderEntry(ids[i], i)
  {
    if kind != "news" {
      return None;
    }
    var entries: seq<OrderEntry> := [];
    var i := 0;
    while i < |ids|
      invariant 0 <= i <= |ids|
      invariant |entries| == i
      invariant forall k :: 0 <= k < i ==> entries[k] == OrderEntry(ids[k], k)
    {
      entries := entries + [OrderEntry(ids[i], i)];
      i := i + 1;
    }
    orders := Some(entries);
  }

  /** The news list once each item carries its position as `order`. */
  function Renumbered(news: seq<News>): (r: seq<News>)
    ensures |r| == |news|
    ensures forall i :: 0 <= i < |news| ==> r[i] == news[i].(order := Some(i))
  {
    seq(|news|, i requires 0 <= i < |news| => news[i].(order := Some(i)))
  }

  /** A list of pairwise different items holds each item at most once. */
  lemma {:induction false} DistinctOnce<T>(r: seq<T>, x: T)
    requires forall p, q :: 0 <= p < q < |r| ==> r[p] != r[q]
    ensures multiset(r)[x] <= 1
  {
    if r != [] {
      assert r == [r[0]] + r[1..];
      assert r[0] !in r[1..];
      DistinctOnce(r[1..], x);
    }
  }

  /** The drag list mixes news of every flag group. Once each item carries
      its dragged position as `order`, the page shows any two news of the
      same group in strictly increasing saved order, so in the order they
      were dragged into. */
  lemma DraggedOrderShown(news: seq<News>, i: int, j: int)
    requires 0 <= i < j < |news|
    ensures |SortNews(Renumbered(news))| == |news|
    ensures var s := SortNews(Renumbered(news));
      s[i].pinned == s[j].pinned && s[i].featured == s[j].featured ==>
        s[i].order.GetOr(0) < s[j].order.GetOr(0)
  {
    var r := Renumbered(news);
    var s := SortNews(r);
    SortNewsOrder(r, i, j);
    assert |s| == |r| by {
      assert |multiset(s)| == |multiset(r)|;
    }
    if s[i].pinned == s[j].pinned && s[i].featured == s[j].featured
       && s[i].order.GetOr(0) == s[j].order.GetOr(0)
    {
      assert s[i] in multiset(r) && s[j] in multiset(r);
      var p :| 0 <= p < |r| && r[p] == s[i];
      var q :| 0 <= q < |r| && r[q] == s[j];
      assert p == q;
      assert s == s[..j] + s[j..];
      assert s[i] in s[..j] && s[j] in s[j..];
      assert multiset(s)[s[i]] >= 2 by {
        assert multiset(s) == multiset(s[..j]) + multiset(s[j..]);
      }
      DistinctOnce(r, s[i]);
      assert false;
    }
  }

  // ---------------------------------------------------------------- streamers

  datatype Streamer = Streamer(id: int, url: string)

  const MaxCards := 6

  /** `liveMap[s.id]`, undefined counting as offline. */
  predicate IsLive(liveMap: map<int, bool>, s: Streamer) {
    s.id in liveMap && liveMap[s.id]
  }

  /** The comparator of `renderStreamers`: live before offline, otherwise 0. */
  function LiveFirst(liveMap: map<int, bool>): (Streamer, Streamer) -> int {
    (a: Streamer, b: Streamer) =>
      if IsLive(liveMap, a) && !IsLive(liveMap, b) then -1
      else if !IsLive(liveMap, a) && IsLive(liveMap, b) then 1
      else 0
  }

  /** Whether a streamer is live, as a key for `WithKey`. */
  function LiveKey(liveMap: map<int, bool>): Streamer -> bool {
    s => IsLive(liveMap, s)
  }

  /** The live streamers, in list order. */
  function Live(liveMap: map<int, bool>, s: seq<Streamer>): seq<Streamer> {
    WithKey(LiveKey(liveMap), true, s)
  }

  /** The offline streamers, in list order. */
  function Offline(liveMap: map<int, bool>, s: seq<Streamer>): seq<Streamer> {
    WithKey(LiveKey(liveMap), false, s)
  }

  /** The cards `renderStreamers` draws: the sorted list cut to six. */
  function Cards(strs: seq<Streamer>, liveMap: map<int, bool>): seq<Streamer> {
    var sorted := Sort(LiveFirst(liveMap), strs);
    if |sorted| <= MaxCards then sorted else sorted[..MaxCards]
  }

  lemma LiveAllLive(liveMap: map<int, bool>, s: seq<Streamer>)
    ensures forall i :: 0 <= i < |Live(liveMap, s)| ==> IsLive(liveMap, Live(liveMap, s)[i])
    ensures forall i :: 0 <= i < |Offline(liveMap, s)| ==> !IsLive(liveMap, Offline(liveMap, s)[i])
  {
    WithKeyHasKey(LiveKey(liveMap), true, s);
    WithKeyHasKey(LiveKey(liveMap), false, s);
  }

  /** An offline streamer goes behind every live one and in front of the
      offline ones already sorted. */
  lemma {:induction false} InsertOffline(liveMap: map<int, bool>, x: Streamer, live: seq<Streamer>, off: seq<Streamer>)
    requires !IsLive(liveMap, x)
    requires forall i :: 0 <= i < |live| ==> IsLive(liveMap, live[i])
    requires forall i :: 0 <= i < |off| ==> !IsLive(liveMap, off[i])
    ensures Insert(LiveFirst(liveMap), x, live + off) == live + [x] + off
  {
    if live != [] {
      assert (live + off)[0] == live[0];
      assert (live + off)[1..] == live[1..] + off;
      InsertOffline(liveMap, x, live[1..], off);
    } else {
      assert live + off == off;
    }
  }

  /** The stable sort with the live-first comparator keeps the live streamers
      in their order, then the offline ones in theirs. */
  lemma {:induction false} SortIsLiveThenOffline(liveMap: map<int, bool>, s: seq<Streamer>)
    ensures Sort(LiveFirst(liveMap), s) == Live(liveMap, s) + Offline(liveMap, s)
  {
    if s != [] {
      SortIsLiveThenOffline(liveMap, s[1..]);
      var live, off := Live(liveMap, s[1..]), Offline(liveMap, s[1..]);
      LiveAllLive(liveMap, s[1..]);
      if IsLive(liveMap, s[0]) {
        assert Sort(LiveFirst(liveMap), s) == [s[0]] + (live + off);
      } else {
        InsertOffline(liveMap, s[0], live, off);
      }
    }
  }

  /** At most six cards; live streamers come first in their original order,
      and an offline streamer is shown only when fewer than six are live. */
  lemma CardsShape(strs: seq<Streamer>, liveMap: map<int, bool>)
    ensures |Cards(strs, liveMap)| <= MaxCards
    ensures var live := Live(liveMap, strs);
      var cards := Cards(strs, liveMap);
      && (|live| >= MaxCards ==> cards == live[..MaxCards])
      && (|live| < MaxCards ==> |live| <= |cards| && cards[..|live|] == live)
  {
    SortIsLiveThenOffline(liveMap, strs);
    var live := Live(liveMap, strs);
    var all := live + Offline(liveMap, strs);
    if |live| >= MaxCards {
      assert all[..MaxCards] == live[..MaxCards];
    } else if |all| > MaxCards {
      assert all[..MaxCards][..|live|] == live;
    }
  }

  /** Live status of one streamer: online only with a non-empty login. */
  function StreamerLive(s: Streamer, parse: string -> Option<ParsedUrl>, online: string -> bool): bool {
    var login := TwitchLogin(s.url, parse(s.url));
    login.Some? && login.value != "" && online(login.value)
  }

  /** The ids of a list of streamers. */
  function Ids(strs: seq<Streamer>): (r: set<int>)
    ensures forall i :: 0 <= i < |strs| ==> strs[i].id in r
  {
    if strs == [] then {} else Ids(strs[..|strs| - 1]) + {strs[|strs| - 1].id}
  }

  /** No streamer after position i and before position n has the same id. */
  predicate NoLaterId(strs: seq<Streamer>, i: int, n: int)
    requires 0 <= i < |strs| && n <= |strs|
  {
    forall j :: i < j < n ==> strs[j].id != strs[i].id
  }

  /** `m` is the live map after the first k streamers: one entry per id
      seen, holding the status of the last streamer so far with that id. */
  ghost predicate LiveMapAfter(strs: seq<Streamer>, k: int, m: map<int, bool>, status: Streamer -> bool)
    requires 0 <= k <= |strs|
  {
    && m.Keys == Ids(strs[..k])
    && forall i :: 0 <= i < k && NoLaterId(strs, i, k) ==>
         strs[i].id in m && m[strs[i].id] == status(strs[i])
  }

  /** One turn of the loop: the entry of streamer k overwrites any earlier
      entry with its id. */
  lemma LiveMapStep(strs: seq<Streamer>, k: int, m: map<int, bool>, status: Streamer -> bool)
    requires 0 <= k < |strs| && LiveMapAfter(strs, k, m, status)
    ensures LiveMapAfter(strs, k + 1, m[strs[k].id := status(strs[k])], status)
  {
    IdsStep(strs, k);
    var m' := m[strs[k].id := status(strs[k])];
    forall i | 0 <= i < k + 1 && NoLaterId(strs, i, k + 1)
      ensures strs[i].id in m' && m'[strs[i].id] == status(strs[i])
    {
      if i < k {
        assert strs[k].id != strs[i].id;
        assert NoLaterId(strs, i, k);
      }
    }
  }

  /** The keys of the live map are exactly the ids of the streamers. */
  lemma {:induction false} IdsExactly(strs: seq<Streamer>)
    ensures Ids(strs) == set s | s in strs :: s.id
  {
    if strs != [] {
      var init := strs[..|strs| - 1];
      IdsExactly(init);
      assert strs == init + [strs[|strs| - 1]];
      assert (set s | s in strs :: s.id) == (set s | s in init :: s.id) + {strs[|strs| - 1].id};
    }
  }

  lemma IdsStep(strs: seq<Streamer>, k: int)
    requires 0 <= k < |strs|
    ensures Ids(strs[..k + 1]) == Ids(strs[..k]) + {strs[k].id}
  {
    assert strs[..k + 1][..k] == strs[..k];
  }

  /** The loop of `renderStreamers` that fills `liveMap`: one entry per id,
      holding the live status of the last streamer with that id. `parse`
      stands for `new URL` and `online` for `checkTwitchLive`. */
  method BuildLiveMap(strs: seq<Streamer>, parse: string -> Option<ParsedUrl>, online: string -> bool)
    returns (liveMap: map<int, bool>)
    ensures liveMap.Keys == set s | s in strs :: s.id
    ensures forall i :: 0 <= i < |strs| && NoLaterId(strs, i, |strs|) ==>
      liveMap[strs[i].id] == StreamerLive(strs[i], parse, online)
  {
    ghost var status := (s: Streamer) => StreamerLive(s, parse, online);
    liveMap := map[];
    var k := 0;
    while k < |strs|
      invariant 0 <= k <= |strs|
      invariant LiveMapAfter(strs, k, liveMap, status)
    {
      var s := strs[k];
      var live := StreamerLive(s, parse, online);
      LiveMapStep(strs, k, liveMap, status);
      liveMap := liveMap[s.id := live];
      k := k + 1;
    }
    assert strs[..k] == strs;
    IdsExactly(strs);
  }

  // ---------------------------------------------------------------- protected pages

  /** Characters `encodeURIComponent` leaves as they are. */
  predicate Unreserved(c: char) {
    IsAsciiUpper(c) || IsAsciiLower(c) || IsDigit(c)
    || c == '-' || c == '_' || c == '.' || c == '!' || c == '~' || c == '*'
    || c == '\'' || c == '(' || c == ')'
  }

  predicate IsHexUpper(c: char) { IsDigit(c) || ('A' <= c <= 'F') }

  function HexDigit(n: int): (c: char)
    requires 0 <= n < 16
    ensures IsHexUpper(c)
  {
    if n < 10 then ('0' as int + n) as char else ('A' as int + n - 10) as char
  }

  /** The UTF-8 bytes of a code point. */
  function Utf8(cp: int): (bytes: seq<int>)
    requires 0 <= cp < 0x11_0000
    ensures 1 <= |bytes| <= 4
    ensures forall i :: 0 <= i < |bytes| ==> 0 <= bytes[i] < 256
  {
    if cp < 0x80 then [cp]
    else if cp < 0x800 then [0xC0 + cp / 64, 0x80 + cp % 64]
    else if cp < 0x1_0000 then [0xE0 + cp / 4096, 0x80 + (cp / 64) % 64, 0x80 + cp % 64]
    else [0xF0 + cp / 262144, 0x80 + (cp / 4096) % 64, 0x80 + (cp / 64) % 64, 0x80 + cp % 64]
  }

  function PercentBytes(bytes: seq<int>): string
    requires forall i :: 0 <= i < |bytes| ==> 0 <= bytes[i] < 256
  {
    if bytes == [] then []
    else ['%', HexDigit(bytes[0] / 16), HexDigit(bytes[0] % 16)] + PercentBytes(bytes[1..])
  }

  /** `encodeURIComponent(s)` */
  function EncodeUriComponent(s: string): string {
    if s == [] then []
    else
      (if Unreserved(s[0]) then [s[0]] else PercentBytes(Utf8(s[0] as int)))
      + EncodeUriComponent(s[1..])
  }

  predicate UriSafe(c: char) { Unreserved(c) || c == '%' || IsHexUpper(c) }

  lemma {:induction false} PercentBytesSafe(bytes: seq<int>)
    requires forall i :: 0 <= i < |bytes| ==> 0 <= bytes[i] < 256
    ensures forall i :: 0 <= i < |PercentBytes(bytes)| ==> UriSafe(PercentBytes(bytes)[i])
  {
    if bytes != [] {
      PercentBytesSafe(bytes[1..]);
      var head := ['%', HexDigit(bytes[0] / 16), HexDigit(bytes[0] % 16)];
      var tail := PercentBytes(bytes[1..]);
      assert PercentBytes(bytes) == head + tail;
      forall i | 0 <= i < |head + tail| ensures UriSafe((head + tail)[i]) {
        if i >= 3 {
          assert (head + tail)[i] == tail[i - 3];
        }
      }
    }
  }

  /** An encoded component is made of unreserved characters and %XX escapes
      only, so it holds none of '&', '=', '?', '#', '/' and cannot start a
      second query parameter. */
  lemma {:induction false} EncodedIsSafe(s: string)
    ensures forall i :: 0 <= i < |EncodeUriComponent(s)| ==> UriSafe(EncodeUriComponent(s)[i])
  {
    if s != [] {
      EncodedIsSafe(s[1..]);
      var head := if Unreserved(s[0]) then [s[0]] else PercentBytes(Utf8(s[0] as int));
      if !Unreserved(s[0]) {
        PercentBytesSafe(Utf8(s[0] as int));
      }
      var tail := EncodeUriComponent(s[1..]);
      assert EncodeUriComponent(s) == head + tail;
      forall i | 0 <= i < |head + tail| ensures UriSafe((head + tail)[i]) {
        if i >= |head| {
          assert (head + tail)[i] == tail[i - |head|];
        }
      }
    }
  }

  /** A component of unreserved characters (a snowflake id) is not changed. */
  lemma {:induction false} EncodeKeepsUnreserved(s: string)
    requires forall i :: 0 <= i < |s| ==> Unreserved(s[i])
    ensures EncodeUriComponent(s) == s
  {
    if s != [] {
      EncodeKeepsUnreserved(s[1..]);
    }
  }

  const PagesDir := "/pages/"
  const QueryKey := "?discord_id="

  /** `protectedPageUrl(filename)`: relative to the pages directory unless the
      current path is already inside it, with the session user's id as the
      only query parameter when there is one. */
  function ProtectedPageUrl(filename: string, currentPath: string, userId: Option<Id>): string {
    var base := if Contains(currentPath, PagesDir) then filename else "pages/" + filename;
    if userId.None? || userId.value == "" then base
    else base + QueryKey + EncodeUriComponent(userId.value)
  }

  /** The page prefix depends only on the current path and the query only on
      the session: with no user there is no query; with a user the url ends
      with the key and the encoded id, in which no further '&', '=' or '#'
      can occur. */
  lemma ProtectedPageUrlShape(filename: string, currentPath: string, userId: Option<Id>)
    ensures var url := ProtectedPageUrl(filename, currentPath, userId);
      var base := if Contains(currentPath, PagesDir) then filename else "pages/" + filename;
      && (userId.None? || userId.value == "" ==> url == base)
      && (userId.Some? && userId.value != "" ==>
            var enc := EncodeUriComponent(userId.value);
            && url == base + QueryKey + enc
            && forall i :: 0 <= i < |enc| ==> enc[i] != '&' && enc[i] != '=' && enc[i] != '#' && enc[i] != '?')
  {
    if userId.Some? {
      EncodedIsSafe(userId.value);
    }
  }

  /** A snowflake id lands in the url as it is. */
  lemma ProtectedPageUrlWithSnowflake(filename: string, currentPath: string, id: Id)
    requires id != "" && forall i :: 0 <= i < |id| ==> IsDigit(id[i])
    ensures ProtectedPageUrl(filename, currentPath, Some(id))
      == (if Contains(currentPath, PagesDir) then filename else "pages/" + filename) + QueryKey + id
  {
    EncodeKeepsUnreserved(id);
  }
}
