/** Shared vocabulary: the optional value that stands for a missing JSON or
    database field, and the small string predicates the handlers use. */
module Common {

  datatype Option<+T> = None | Some(value: T) {
    function GetOr(default: T): T {
      match this
      case Some(v) => v
      case None => default
    }
  }

  /** A Discord snowflake or other identifier; the empty string is the
      "falsy" (missing) identifier of the JavaScript source. */
  type Id = string

  /** Milliseconds since the epoch, as `Date.now()` gives them. */
  type Time = int

  predicate StartsWith(s: string, prefix: string) {
    |prefix| <= |s| && s[..|prefix|] == prefix
  }

  /** `s.includes(sub)` */
  predicate Contains(s: string, sub: string) {
    StartsWith(s, sub) || (s != [] && Contains(s[1..], sub))
  }

  predicate IsAsciiUpper(c: char) { 'A' <= c <= 'Z' }
  predicate IsAsciiLower(c: char) { 'a' <= c <= 'z' }
  predicate IsDigit(c: char) { '0' <= c <= '9' }

  /** ASCII lower-casing of one character; every other character is kept. */
  function LowerAscii(c: char): char {
    if IsAsciiUpper(c) then (c as int + 32) as char else c
  }

  /** `s.toLowerCase()` on strings whose letters are ASCII. */
  function LowerAsciiString(s: string): (r: string)
    ensures |r| == |s|
    ensures forall i :: 0 <= i < |s| ==> r[i] == LowerAscii(s[i])
  {
    if s == [] then [] else [LowerAscii(s[0])] + LowerAsciiString(s[1..])
  }

  /** `s.split(sep)[0]`: everything before the first `sep`, or all of `s`. */
  function BeforeSep(s: string, sep: char): (r: string)
    ensures |r| <= |s| && r == s[..|r|] && sep !in r
    ensures |r| == |s| || s[|r|] == sep
  {
    if s == [] || s[0] == sep then [] else [s[0]] + BeforeSep(s[1..], sep)
  }

  /** A segment without the separator, followed by nothing or by the
      separator, is what the split gives first. */
  lemma {:induction false} BeforeSepStops(segment: string, rest: string, sep: char)
    requires sep !in segment
    requires rest == [] || rest[0] == sep
    ensures BeforeSep(segment + rest, sep) == segment
  {
    if segment != [] {
      assert (segment + rest)[1..] == segment[1..] + rest;
      BeforeSepStops(segment[1..], rest, sep);
    } else {
      assert segment + rest == rest;
    }
  }

  lemma LowerAsciiIdempotent(s: string)
    ensures LowerAsciiString(LowerAsciiString(s)) == LowerAsciiString(s)
  {
  }
}
