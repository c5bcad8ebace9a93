/** The ticket channel's name and the close button's custom id, both built in
    the submit handler and read back by the relay filter and the button
    handler. */
module Tickets {
  import opened Common

  const TicketPrefix := "wl-"
  const DefaultPseudo := "candidat"
  const SlugLength := 20
  const IdSuffixLength := 4
  const CloseTicketPrefix := "close_ticket:"

  predicate IsSlugChar(c: char) { IsAsciiLower(c) || IsDigit(c) || c == '-' }

  /** One source character after `.toLowerCase()` and then
      `.replace(/[^a-z0-9]/g, '-')`. Both work on UTF-16 code units: a
      character outside the Basic Multilingual Plane is two units and so
      becomes two dashes. Outside ASCII only two characters lower-case to
      ASCII letters: U+0130 (to "i" and a combining dot, giving "i-") and
      the Kelvin sign U+212A (to "k"). */
  function SlugOf(c: char): string {
    if IsAsciiUpper(c) then [LowerAscii(c)]
    else if IsAsciiLower(c) || IsDigit(c) then [c]
    else if c == '\U{0130}' then "i-"
    else if c == '\U{212A}' then "k"
    else if c as int >= 0x1_0000 then "--"
    else "-"
  }

  function Slug(s: string): string {
    if s == [] then [] else SlugOf(s[0]) + Slug(s[1..])
  }

  /** `s.slice(0, n)` */
  function Take(s: string, n: nat): (r: string) {
    if |s| <= n then s else s[..n]
  }

  /** `s.slice(-n)` for n > 0 */
  function LastN(s: string, n: nat): string {
    if |s| <= n then s else s[|s| - n..]
  }

  /** The channel name of a new ticket: "wl-", the lower-cased pseudo (or
      "candidat") with every character outside [a-z0-9] replaced by '-' and
      cut to 20 units, then "-" and the last four units of the id. */
  function ChannelName(pseudo: string, id: Id): string {
    var who := if pseudo == "" then DefaultPseudo else pseudo;
    TicketPrefix + Take(Slug(who), SlugLength) + "-" + LastN(id, IdSuffixLength)
  }

  lemma {:induction false} SlugChars(s: string)
    ensures forall i :: 0 <= i < |Slug(s)| ==> IsSlugChar(Slug(s)[i])
    ensures |Slug(s)| >= |s|
  {
    if s != [] {
      SlugChars(s[1..]);
      var h := SlugOf(s[0]);
      assert Slug(s) == h + Slug(s[1..]);
      forall i | 0 <= i < |Slug(s)| ensures IsSlugChar(Slug(s)[i]) {
        if i >= |h| {
          assert Slug(s)[i] == Slug(s[1..])[i - |h|];
        }
      }
    }
  }

  /** A pseudo already made of [a-z0-9-] is kept as it is. */
  lemma {:induction false} SlugKeepsSlugChars(s: string)
    requires forall i :: 0 <= i < |s| ==> IsSlugChar(s[i])
    ensures Slug(s) == s
  {
    if s != [] {
      SlugKeepsSlugChars(s[1..]);
    }
  }

  /** The name always carries the prefix the relay filter looks for, is at
      most 28 units long, is made of [a-z0-9-] around the id suffix, and ends
      with "-" and the id's last four units. */
  lemma ChannelNameShape(pseudo: string, id: Id)
    ensures StartsWith(ChannelName(pseudo, id), TicketPrefix)
    ensures var name := ChannelName(pseudo, id);
      var slugEnd := |name| - |LastN(id, IdSuffixLength)|;
      && 5 <= slugEnd <= 24
      && name[slugEnd - 1] == '-'
      && name[slugEnd..] == LastN(id, IdSuffixLength)
      && forall i :: 0 <= i < slugEnd ==> IsSlugChar(name[i])
    ensures |ChannelName(pseudo, id)| <= 3 + SlugLength + 1 + IdSuffixLength
  {
    var who := if pseudo == "" then DefaultPseudo else pseudo;
    SlugChars(who);
    var slug := Take(Slug(who), SlugLength);
    var name := ChannelName(pseudo, id);
    assert name == TicketPrefix + slug + "-" + LastN(id, IdSuffixLength);
    assert forall i :: 0 <= i < |slug| ==> slug[i] == Slug(who)[i];
    forall i | 0 <= i < |name| - |LastN(id, IdSuffixLength)|
      ensures IsSlugChar(name[i])
    {
      if 3 <= i < 3 + |slug| {
        assert name[i] == slug[i - 3];
      }
    }
  }

  /** A lower-case alphanumeric pseudo of at most 20 characters appears in
      the name unchanged. */
  lemma ChannelNameKeepsPlainPseudo(pseudo: string, id: Id)
    requires pseudo != [] && |pseudo| <= SlugLength
    requires forall i :: 0 <= i < |pseudo| ==> IsAsciiLower(pseudo[i]) || IsDigit(pseudo[i])
    ensures ChannelName(pseudo, id) == TicketPrefix + pseudo + "-" + LastN(id, IdSuffixLength)
  {
    SlugKeepsSlugChars(pseudo);
  }

  /** The custom id of the close button placed on a new ticket. */
  function CloseTicketCustomId(id: Id): string {
    CloseTicketPrefix + id
  }

  /** The button handler: a custom id that starts with "close_ticket:"
      closes the ticket of the id found by `customId.split(':')[1]`; any other
      button or interaction is not a close request. */
  function ParseCloseTicket(customId: string): Option<Id> {
    if StartsWith(customId, CloseTicketPrefix)
    then Some(BeforeSep(customId[|CloseTicketPrefix|..], ':'))
    else None
  }

  /** The button built for an id (a snowflake has no ':') gives that id back. */
  lemma CloseTicketRoundTrip(id: Id)
    requires ':' !in id
    ensures ParseCloseTicket(CloseTicketCustomId(id)) == Some(id)
  {
    var c := CloseTicketCustomId(id);
    assert c[|CloseTicketPrefix|..] == id;
    BeforeSepStops(id, [], ':');
    assert id + [] == id;
  }

  /** Only custom ids with the prefix are close requests, and the id read
      back never holds a ':'. */
  lemma ParseCloseTicketShape(customId: string)
    ensures ParseCloseTicket(customId).Some? <==> StartsWith(customId, CloseTicketPrefix)
    ensures ParseCloseTicket(customId).Some? ==> ':' !in ParseCloseTicket(customId).value
  {
  }
}
