/** `urllib.parse.urlsplit` and `urlunsplit`: the five-component split of section 2.4 of
    RFC 1808 as Python performs it (scheme, network location, path, query, fragment). */
module UrlParse {
  import opened Wrappers
  import opened PyStr

  datatype SplitResult = SplitResult(scheme: string, netloc: string, path: string, query: string, fragment: string)

  predicate IsAsciiLetter(c: char) {
    'A' <= c <= 'Z' || 'a' <= c <= 'z'
  }

  /** `urllib.parse.scheme_chars`. */
  predicate IsSchemeChar(c: char) {
    IsAsciiLetter(c) || '0' <= c <= '9' || c == '+' || c == '-' || c == '.'
  }

  /** No character of `s` is in `cs`. */
  predicate Free(s: string, cs: set<char>) {
    forall k :: 0 <= k < |s| ==> s[k] !in cs
  }

  const NetlocDelimiters: set<char> := {'/', '?', '#'}

  /** `urllib.parse.uses_netloc`: schemes whose URLs carry a network location. */
  const UsesNetloc: set<string> := {
    "", "ftp", "http", "gopher", "nntp", "telnet", "imap", "wais", "file", "mms", "https",
    "shttp", "snews", "prospero", "rtsp", "rtspu", "rsync", "svn", "svn+ssh", "sftp", "nfs",
    "git", "git+ssh", "ws", "wss"}

  /** The first index at or after `from` holding a character of `cs`, or `|s|`. */
  function FirstOf(s: string, from: nat, cs: set<char>): (i: nat)
    requires from <= |s|
    ensures from <= i <= |s|
    ensures i < |s| ==> s[i] in cs
    ensures forall k :: from <= k < i ==> s[k] !in cs
    decreases |s| - from
  {
    if from == |s| || s[from] in cs then from else FirstOf(s, from + 1, cs)
  }

  /** `s.split(c, 1)` when `c in s`, and `(s, "")` otherwise. */
  function Partition(s: string, c: char): (r: (string, string))
    ensures c !in r.0
    ensures c in s ==> s == r.0 + [c] + r.1
    ensures c !in s ==> r == (s, "")
  {
    var i := FirstOf(s, 0, {c});
    assert forall k :: 0 <= k < i ==> s[..i][k] == s[k];
    if i < |s| then
      assert s == s[..i] + [c] + s[i + 1..];
      (s[..i], s[i + 1..])
    else
      assert s[..i] == s;
      (s, "")
  }

  /** The scheme is the text before the first `:` when that text is non-empty, starts with
      an ASCII letter and holds only scheme characters. Returns its length. */
  function SchemeLength(url: string): (r: Option<nat>)
    ensures r.Some? ==> 0 < r.value < |url| && url[r.value] == ':' && ':' !in url[..r.value]
    ensures r.Some? ==> IsAsciiLetter(url[0]) && forall k :: 0 <= k < r.value ==> IsSchemeChar(url[k])
  {
    match Find(url, ":")
    case None => None
    case Some(i) =>
      assert url[i..i + 1] == ":";
      if i > 0 && IsAsciiLetter(url[0]) && (forall k :: 0 <= k < i ==> IsSchemeChar(url[k])) then
        assert forall k :: 0 <= k < i ==> url[..i][k] == url[k] && url[k] != ':';
        Some(i)
      else None
  }

  /** The lower-cased scheme and what follows its `:`; no scheme leaves the url whole. */
  function SchemeSplit(url: string): (string, string) {
    match SchemeLength(url)
    case Some(i) => (Lower(url[..i]), url[i + 1..])
    case None => ("", url)
  }

  /** `_splitnetloc(url, 2)`: the network location runs from index 2 to the first of `/?#`. */
  function SplitNetloc(url: string): (r: (string, string))
    requires |url| >= 2
    ensures r.0 + r.1 == url[2..]
    ensures Free(r.0, NetlocDelimiters)
    ensures r.1 == "" || r.1[0] in NetlocDelimiters
  {
    var d := FirstOf(url, 2, NetlocDelimiters);
    assert forall k :: 0 <= k < d - 2 ==> url[2..d][k] == url[2 + k];
    assert url[2..d] + url[d..] == url[2..];
    (url[2..d], url[d..])
  }

  predicate StartsWithSlashes(s: string) {
    |s| >= 2 && s[..2] == "//"
  }

  /** `urlsplit(url)`. Only an unbalanced `[` or `]` in the network location raises. */
  function UrlSplit(url: string): (r: Result<SplitResult>)
    ensures r.Err? <==> var n := NetlocOf(url); ('[' in n) != (']' in n)
    ensures r.Err? ==> r.error.kind == ValueError
    ensures r.Ok? ==> r.value.netloc == NetlocOf(url)
    ensures r.Ok? ==> Free(r.value.netloc, NetlocDelimiters)
    ensures r.Ok? ==> '?' !in r.value.path && '#' !in r.value.path && '#' !in r.value.query
    ensures r.Ok? ==> r.value.scheme == SchemeSplit(url).0
  {
    var (scheme, rest) := SchemeSplit(url);
    var (netloc, rest2) := if StartsWithSlashes(rest) then SplitNetloc(rest) else ("", rest);
    if ('[' in netloc) != (']' in netloc) then Raise(ValueError, "Invalid IPv6 URL")
    else
      var (p1, fragment) := Partition(rest2, '#');
      var (path, query) := Partition(p1, '?');
      assert '#' !in path by {
        assert p1 == path + query || p1 == path + ['?'] + query;
      }
      Ok(SplitResult(scheme, netloc, path, query, fragment))
  }

  /** The network location `urlsplit` finds: present only when `//` follows the scheme. */
  function NetlocOf(url: string): (n: string)
    ensures n != "" ==> StartsWithSlashes(SchemeSplit(url).1)
  {
    var rest := SchemeSplit(url).1;
    if StartsWithSlashes(rest) then SplitNetloc(rest).0 else ""
  }

  /** A scheme that uses a network location gets `//` even when the location is empty. */
  predicate SlashesImplied(scheme: string, path: string) {
    scheme != "" && scheme in UsesNetloc && !StartsWithSlashes(path)
  }

  /** The path behind a network location: a relative path gains a leading `/`. */
  function AbsolutePath(path: string): string {
    if path != "" && path[0] != '/' then "/" + path else path
  }

  /** `?` and the query, when there is one. */
  function QueryPart(query: string): string {
    if query != "" then "?" + query else ""
  }

  /** `#` and the fragment, when there is one. */
  function FragmentPart(fragment: string): string {
    if fragment != "" then "#" + fragment else ""
  }

  /** `urlunsplit((scheme, netloc, path, query, fragment))`. */
  function UrlUnsplit(parts: SplitResult): string {
    var withNetloc :=
      if parts.netloc != "" || SlashesImplied(parts.scheme, parts.path) then
        "//" + parts.netloc + AbsolutePath(parts.path)
      else parts.path;
    var withScheme := if parts.scheme != "" then parts.scheme + ":" + withNetloc else withNetloc;
    withScheme + QueryPart(parts.query) + FragmentPart(parts.fragment)
  }

  /** Without a `:` there is no scheme. */
  lemma NoColonNoScheme(url: string)
    requires ':' !in url
    ensures SchemeSplit(url) == ("", url)
  {
    forall k | 0 <= k && k + 1 <= |url| ensures !OccursAt(url, ":", k) {
      assert url[k..k + 1][0] == url[k];
    }
  }

  /** A url that does not start with a letter has no scheme. */
  lemma NonLetterNoScheme(url: string)
    requires url != "" && !IsAsciiLetter(url[0])
    ensures SchemeSplit(url) == ("", url)
  {
  }

  /** Without `//` after the scheme there is no network location. */
  lemma NoSlashesNoNetloc(url: string)
    requires !StartsWithSlashes(SchemeSplit(url).1)
    ensures UrlSplit(url).Ok? && UrlSplit(url).value.netloc == ""
  {
  }

  /** A url of `//`, a network location and an absolute path, with no scheme, query or
      fragment, splits into exactly those parts. */
  lemma SplitSchemeLess(netloc: string, path: string)
    requires ':' !in netloc && ':' !in path
    requires Free(netloc, NetlocDelimiters) && ('[' in netloc) == (']' in netloc)
    requires path == "" || path[0] == '/'
    requires '?' !in path && '#' !in path
    ensures UrlSplit("//" + netloc + path) == Ok(SplitResult("", netloc, path, "", ""))
  {
    var url := "//" + netloc + path;
    assert ':' !in url by {
      forall k | 0 <= k < |url| ensures url[k] != ':' {
        if k >= 2 + |netloc| { assert url[k] == path[k - 2 - |netloc|]; }
        else if k >= 2 { assert url[k] == netloc[k - 2]; }
      }
    }
    NoColonNoScheme(url);
    assert url[..2] == "//";
    var j := 2 + |netloc|;
    forall k | 2 <= k < j ensures url[k] !in NetlocDelimiters {
      assert url[k] == netloc[k - 2];
    }
    if path != "" {
      assert url[j] == path[0];
    }
    FirstOfIs(url, 2, NetlocDelimiters, j);
    assert url[2..j] == netloc;
    assert url[j..] == path;
  }

  lemma FirstOfIs(s: string, from: nat, cs: set<char>, j: nat)
    requires from <= j <= |s|
    requires j < |s| ==> s[j] in cs
    requires forall k :: from <= k < j ==> s[k] !in cs
    ensures FirstOf(s, from, cs) == j
  {
  }

  lemma PartitionAt(a: string, c: char, b: string)
    requires c !in a
    ensures Partition(a + [c] + b, c) == (a, b)
  {
    var s := a + [c] + b;
    FirstOfIs(s, 0, {c}, |a|);
    assert s[..|a|] == a;
    assert s[|a| + 1..] == b;
  }

  lemma PartitionNone(a: string, c: char)
    requires c !in a
    ensures Partition(a, c) == (a, "")
  {
  }

  lemma SchemeSplitHttp(rest: string)
    ensures SchemeSplit("http:" + rest) == ("http", rest)
  {
    var u := "http:" + rest;
    assert OccursAt(u, ":", 4) by { assert u[4..5] == ":"; }
    forall k | 0 <= k < 4 ensures !OccursAt(u, ":", k) {
      assert u[k..k + 1] == [u[k]];
    }
    assert Find(u, ":") == Some(4);
    assert u[..4] == "http";
    assert Lower("http") == "http";
    assert u[5..] == rest;
  }

  lemma SplitNetlocAt(netloc: string, tail: string)
    requires Free(netloc, NetlocDelimiters)
    requires tail == "" || tail[0] in NetlocDelimiters
    ensures SplitNetloc("//" + netloc + tail) == (netloc, tail)
  {
    var rest := "//" + netloc + tail;
    FirstOfIs(rest, 2, NetlocDelimiters, 2 + |netloc|) by {
      assert forall k :: 2 <= k < 2 + |netloc| ==> rest[k] == netloc[k - 2];
      assert 2 + |netloc| < |rest| ==> rest[2 + |netloc|] == tail[0];
    }
    assert rest[2..2 + |netloc|] == netloc;
    assert rest[2 + |netloc|..] == tail;
  }

  /** The fragment is split off first, then the query. */
  lemma PartitionQueryFragment(p: string, query: string, fragment: string)
    requires '?' !in p && '#' !in p && '#' !in query
    ensures var q := if query != "" then "?" + query else "";
      var f := if fragment != "" then "#" + fragment else "";
      Partition(p + q + f, '#') == (p + q, fragment) && Partition(p + q, '?') == (p, query)
  {
    var q := if query != "" then "?" + query else "";
    var f := if fragment != "" then "#" + fragment else "";
    assert '#' !in p + q;
    if fragment != "" {
      assert p + q + f == (p + q) + ['#'] + fragment;
      PartitionAt(p + q, '#', fragment);
    } else {
      assert p + q + f == p + q;
      PartitionNone(p + q, '#');
    }
    if query != "" {
      assert p + q == p + ['?'] + query;
      PartitionAt(p, '?', query);
    } else {
      assert p + q == p;
      PartitionNone(p, '?');
    }
  }

  lemma Assoc3(a: string, b: string, c: string, d: string)
    ensures a + b + c + d == a + (b + c + d)
  {
  }

  lemma UnsplitHttpShape(netloc: string, path: string, query: string, fragment: string)
    requires netloc != ""
    ensures var p := if path != "" && path[0] != '/' then "/" + path else path;
      var q := if query != "" then "?" + query else "";
      var f := if fragment != "" then "#" + fragment else "";
      UrlUnsplit(SplitResult("http", netloc, path, query, fragment)) == "http:" + ("//" + netloc + (p + q + f))
  {
    var p := AbsolutePath(path);
    var q := QueryPart(query);
    var f := FragmentPart(fragment);
    assert "http" + ":" == "http:";
    assert UrlUnsplit(SplitResult("http", netloc, path, query, fragment)) == "http:" + ("//" + netloc + p) + q + f;
    Assoc3("//" + netloc, p, q, f);
    Assoc3("http:", "//" + netloc + p, q, f);
  }

  /** Splitting what `urlunsplit` built with scheme `http` and a network location gives back
      every component (a relative path gains its leading `/`), provided the components are
      ones `urlsplit` can produce. */
  lemma SplitUnsplitHttp(netloc: string, path: string, query: string, fragment: string)
    requires netloc != "" && Free(netloc, NetlocDelimiters) && ('[' in netloc) == (']' in netloc)
    requires '?' !in path && '#' !in path && '#' !in query
    ensures var p := if path != "" && path[0] != '/' then "/" + path else path;
      UrlSplit(UrlUnsplit(SplitResult("http", netloc, path, query, fragment)))
        == Ok(SplitResult("http", netloc, p, query, fragment))
  {
    var p := if path != "" && path[0] != '/' then "/" + path else path;
    var q := if query != "" then "?" + query else "";
    var f := if fragment != "" then "#" + fragment else "";
    var tail := p + q + f;
    var rest := "//" + netloc + tail;
    UnsplitHttpShape(netloc, path, query, fragment);
    SchemeSplitHttp(rest);
    assert StartsWithSlashes(rest) by { assert rest[..2] == "//"; }
    assert '?' !in p && '#' !in p;
    SplitNetlocAt(netloc, tail);
    PartitionQueryFragment(p, query, fragment);
  }
}
