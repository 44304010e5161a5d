/** The problem-URL check of src/extension.ts, the anchored pattern
    `^(https?:\/\/)(www\.)?leetcode\.com\/problems\/[a-zA-Z0-9-]+(\/.*)?$`
    used by the input box's `validateInput`. The pattern is written out as
    a matcher that reads a URL into its parts; the language it accepts is
    exactly the set of URLs composed from well-formed parts. */
module Url {

  import opened Wrappers
  import opened Text

  /** A problem URL taken apart: `https` or `http`, an optional `www.`, the
      problem slug, and what follows a `/` after the slug, if anything. */
  datatype UrlParts = UrlParts(secure: bool, www: bool, slug: string, tail: Option<string>)

  const Host: string := "leetcode.com/problems/"

  const InvalidUrlMessage: string := "Please enter a valid LeetCode problem URL"

  /** `[a-zA-Z0-9-]` */
  predicate SlugChar(c: char) {
    ('a' <= c <= 'z') || ('A' <= c <= 'Z') || ('0' <= c <= '9') || c == '-'
  }

  /** `[a-zA-Z0-9-]+` */
  predicate SlugOk(slug: string) {
    slug != [] && forall i :: 0 <= i < |slug| ==> SlugChar(slug[i])
  }

  /** A text holding no line terminator. */
  predicate OneLine(s: string) {
    forall i :: 0 <= i < |s| ==> !IsLineTerminator(s[i])
  }

  /** `.*`: the regular-expression dot matches anything but a line
      terminator. */
  predicate TailOk(tail: Option<string>) {
    tail.Some? ==> OneLine(tail.value)
  }

  predicate WellFormed(p: UrlParts) {
    SlugOk(p.slug) && TailOk(p.tail)
  }

  function SchemeText(secure: bool): string {
    if secure then "https://" else "http://"
  }

  function WwwText(www: bool): string {
    if www then "www." else ""
  }

  function TailText(tail: Option<string>): string {
    match tail
    case None => ""
    case Some(t) => "/" + t
  }

  /** The URL the parts spell. */
  function Compose(p: UrlParts): string {
    SchemeText(p.secure) + (WwwText(p.www) + (Host + (p.slug + TailText(p.tail))))
  }

  function ParseScheme(s: string): (r: Option<(bool, string)>)
    ensures r.Some? ==> s == SchemeText(r.value.0) + r.value.1
  {
    if StartsWith(s, "https://") then Some((true, s[8..]))
    else if StartsWith(s, "http://") then Some((false, s[7..]))
    else None
  }

  function ParseWww(s: string): (r: (bool, string))
    ensures s == WwwText(r.0) + r.1
  {
    if StartsWith(s, "www.") then (true, s[4..]) else (false, s)
  }

  function ParseHost(s: string): (r: Option<string>)
    ensures r.Some? ==> s == Host + r.value
  {
    if StartsWith(s, Host) then Some(s[|Host|..]) else None
  }

  /** The length of the longest prefix of `s` made of slug characters: the
      greedy `[a-zA-Z0-9-]+`. */
  function SlugLength(s: string): (n: nat)
    ensures n <= |s|
    ensures forall i :: 0 <= i < n ==> SlugChar(s[i])
    ensures n < |s| ==> !SlugChar(s[n])
  {
    if s == [] || !SlugChar(s[0]) then 0 else 1 + SlugLength(s[1..])
  }

  /** Splitting `s` after a slug of length `n` and the `/` that follows. */
  lemma SplitAfterSlug(s: string, n: nat)
    requires n < |s| && s[n] == '/'
    requires forall i :: n + 1 <= i < |s| ==> !IsLineTerminator(s[i])
    ensures s == s[..n] + TailText(Some(s[n + 1..]))
    ensures TailOk(Some(s[n + 1..]))
  {
    var t := s[n + 1..];
    assert s == s[..n] + ("/" + t);
    forall i | 0 <= i < |t|
      ensures !IsLineTerminator(t[i])
    {
      assert t[i] == s[n + 1 + i];
    }
  }

  /** The slug `[a-zA-Z0-9-]+` followed by the optional `(\/.*)?` and the
      end of the input. */
  function ParseSlugAndTail(s: string): (r: Option<(string, Option<string>)>)
    ensures r.Some? ==> s == r.value.0 + TailText(r.value.1)
    ensures r.Some? ==> SlugOk(r.value.0) && TailOk(r.value.1)
  {
    var n := SlugLength(s);
    if n == 0 then None
    else if n == |s| then
      assert s[..n] == s;
      Some((s, None))
    else if s[n] == '/' && forall i :: n + 1 <= i < |s| ==> !IsLineTerminator(s[i]) then
      SplitAfterSlug(s, n);
      Some((s[..n], Some(s[n + 1..])))
    else None
  }

  /** Reads a URL into its parts, following the pattern from left to
      right; `None` when the pattern does not match. */
  function MatchUrl(s: string): (r: Option<UrlParts>)
    ensures r.Some? ==> WellFormed(r.value) && Compose(r.value) == s
  {
    match ParseScheme(s)
    case None => None
    case Some((secure, afterScheme)) =>
      var (www, afterWww) := ParseWww(afterScheme);
      match ParseHost(afterWww)
      case None => None
      case Some(afterHost) =>
        match ParseSlugAndTail(afterHost)
        case None => None
        case Some((slug, tail)) => Some(UrlParts(secure, www, slug, tail))
  }

  /** `regex.test(input)` */
  predicate IsValidUrl(s: string) {
    MatchUrl(s).Some?
  }

  /** `validateInput`: no message for a valid URL, the hint otherwise. */
  function ValidateInput(input: string): (r: Option<string>)
    ensures r.None? <==> IsValidUrl(input)
    ensures r.Some? ==> r.value == InvalidUrlMessage
  {
    if IsValidUrl(input) then None else Some(InvalidUrlMessage)
  }

  lemma ParseSchemeComplete(secure: bool, rest: string)
    ensures ParseScheme(SchemeText(secure) + rest) == Some((secure, rest))
  {
    var s := SchemeText(secure) + rest;
    if secure {
      assert StartsWith(s, "https://") && s[8..] == rest;
    } else {
      assert s[4] == ':';
      assert StartsWith(s, "http://") && s[7..] == rest;
    }
  }

  lemma ParseWwwComplete(www: bool, rest: string)
    requires StartsWith(rest, Host)
    ensures ParseWww(WwwText(www) + rest) == (www, rest)
  {
    var s := WwwText(www) + rest;
    if www {
      assert StartsWith(s, "www.") && s[4..] == rest;
    } else {
      assert s == rest;
      assert s[0] == rest[..|Host|][0] == 'l';
      assert s[..4][0] == s[0];
      assert !StartsWith(s, "www.");
    }
  }

  lemma ParseHostComplete(rest: string)
    ensures ParseHost(Host + rest) == Some(rest)
  {
    assert (Host + rest)[..|Host|] == Host && (Host + rest)[|Host|..] == rest;
  }

  /** The greedy slug stops exactly where a well-formed slug ends. */
  lemma SlugLengthOfSlug(slug: string, t: string)
    requires SlugOk(slug)
    requires t == [] || !SlugChar(t[0])
    ensures SlugLength(slug + t) == |slug|
  {
    var s := slug + t;
    assert forall i :: 0 <= i < |slug| ==> s[i] == slug[i];
    if t != [] {
      assert s[|slug|] == t[0];
    }
  }

  lemma ParseSlugAndTailComplete(slug: string, tail: Option<string>)
    requires SlugOk(slug) && TailOk(tail)
    ensures ParseSlugAndTail(slug + TailText(tail)) == Some((slug, tail))
  {
    var s := slug + TailText(tail);
    SlugLengthOfSlug(slug, TailText(tail));
    assert s[..|slug|] == slug;
    if tail.Some? {
      assert s[|slug|] == '/';
      assert s[|slug| + 1..] == tail.value;
      forall i | |slug| + 1 <= i < |s|
        ensures !IsLineTerminator(s[i])
      {
        assert s[i] == tail.value[i - |slug| - 1];
      }
    }
  }

  /** Every URL composed from well-formed parts is accepted, and read back
      into the very same parts. */
  lemma MatchComplete(p: UrlParts)
    requires WellFormed(p)
    ensures MatchUrl(Compose(p)) == Some(p)
  {
    var afterHost := p.slug + TailText(p.tail);
    var afterWww := Host + afterHost;
    var afterScheme := WwwText(p.www) + afterWww;
    ParseSchemeComplete(p.secure, afterScheme);
    assert StartsWith(afterWww, Host) by { ParseHostComplete(afterHost); }
    ParseWwwComplete(p.www, afterWww);
    ParseHostComplete(afterHost);
    ParseSlugAndTailComplete(p.slug, p.tail);
  }

  /** The pattern accepts exactly the URLs composed from well-formed parts. */
  lemma ValidIffComposed(s: string)
    ensures IsValidUrl(s) <==> exists p :: WellFormed(p) && Compose(p) == s
  {
    if exists p :: WellFormed(p) && Compose(p) == s {
      var p :| WellFormed(p) && Compose(p) == s;
      MatchComplete(p);
    }
  }

  /** Reading a URL into parts loses nothing: distinct well-formed parts
      spell distinct URLs. */
  lemma ComposeInjective(p: UrlParts, q: UrlParts)
    requires WellFormed(p) && WellFormed(q) && Compose(p) == Compose(q)
    ensures p == q
  {
    MatchComplete(p);
    MatchComplete(q);
  }

  lemma OneLineAppend(a: string, b: string)
    requires OneLine(a) && OneLine(b)
    ensures OneLine(a + b)
  {
    forall i | 0 <= i < |a + b|
      ensures !IsLineTerminator((a + b)[i])
    {
      if i >= |a| {
        assert (a + b)[i] == b[i - |a|];
      }
    }
  }

  lemma FixedPartsOneLine(secure: bool, www: bool)
    ensures OneLine(SchemeText(secure)) && OneLine(WwwText(www)) && OneLine(Host)
  {
    OneLineAppend("https", "://");
    OneLineAppend("leetcode.com", "/problems/");
  }

  lemma SlugOneLine(slug: string)
    requires SlugOk(slug)
    ensures OneLine(slug)
  {
  }

  lemma ComposeOneLine(p: UrlParts)
    requires WellFormed(p)
    ensures OneLine(Compose(p))
  {
    var t := TailText(p.tail);
    FixedPartsOneLine(p.secure, p.www);
    SlugOneLine(p.slug);
    if p.tail.Some? {
      OneLineAppend("/", p.tail.value);
    }
    OneLineAppend(p.slug, t);
    OneLineAppend(Host, p.slug + t);
    OneLineAppend(WwwText(p.www), Host + (p.slug + t));
    OneLineAppend(SchemeText(p.secure), WwwText(p.www) + (Host + (p.slug + t)));
  }

  /** An accepted URL is a single line: neither the slug nor the tail can
      hold a line terminator. */
  lemma ValidUrlIsOneLine(s: string)
    requires IsValidUrl(s)
    ensures OneLine(s)
  {
    ComposeOneLine(MatchUrl(s).value);
  }

  /** Nothing is accepted unless a slug character follows "/problems/":
      the slug may not be empty. */
  lemma SlugRequired(secure: bool, www: bool, rest: string)
    requires rest == [] || !SlugChar(rest[0])
    ensures !IsValidUrl(SchemeText(secure) + (WwwText(www) + (Host + rest)))
  {
    ParseSchemeComplete(secure, WwwText(www) + (Host + rest));
    ParseHostComplete(rest);
    ParseWwwComplete(www, Host + rest);
  }
}
