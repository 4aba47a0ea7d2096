/** The part of Python's `urllib.parse` (as in CPython 3.13) that the harvester relies on:
    `urlparse`, which splits a URL into six components, and `ParseResult.geturl()`, which
    joins them back (`urlunparse`). */
module UrlParse {
  import opened Util

  /** The six fields of a `ParseResult`. */
  datatype Parts = Parts(scheme: string, netloc: string, path: string, params: string, query: string, fragment: string)

  /** `urlparse` returns the components, or raises ValueError for a host with an
      unmatched '[' or ']'. */
  datatype Parsed = Ok(parts: Parts) | ValueError

  /** The characters `urlsplit` deletes wherever they occur. */
  predicate IsUnsafe(c: char) { c == '\t' || c == '\r' || c == '\n' }

  /** The characters that may make up a scheme. */
  predicate IsSchemeChar(c: char) { IsAsciiLetter(c) || IsDigit(c) || c == '+' || c == '-' || c == '.' }

  /** No character of `s` is in `cs`. */
  predicate Avoids(s: string, cs: set<char>) { forall i :: 0 <= i < |s| ==> s[i] !in cs }

  /** The schemes for which `urlparse` splits `;params` off the last path segment. */
  const UsesParams: seq<string> := ["", "ftp", "hdl", "prospero", "http", "imap", "https", "shttp",
    "rtsp", "rtsps", "rtspu", "sip", "sips", "mms", "sftp", "tel"]

  /** The schemes for which `urlunsplit` writes "//" even when the host is empty. */
  const UsesNetloc: seq<string> := ["", "ftp", "http", "gopher", "nntp", "telnet", "imap", "wais",
    "file", "mms", "https", "shttp", "snews", "prospero", "rtsp", "rtsps", "rtspu", "rsync", "svn",
    "svn+ssh", "sftp", "nfs", "git", "git+ssh", "ws", "wss", "itms-services"]

  /** `url.lstrip()` over the C0 controls and the space, U+0000 to U+0020. */
  function StripLeadingControls(s: string): string {
    if s != [] && s[0] <= ' ' then StripLeadingControls(s[1..]) else s
  }

  /** Deletes every tab, carriage return and line feed. */
  function RemoveUnsafe(s: string): string {
    if s == [] then [] else (if IsUnsafe(s[0]) then [] else [s[0]]) + RemoveUnsafe(s[1..])
  }

  /** What `urlsplit` does to its argument before looking at it. */
  function Sanitize(url: string): string {
    RemoveUnsafe(StripLeadingControls(url))
  }

  /** `s.find(c, start)`, except that "not found" is `|s|` rather than -1. */
  function FindFrom(s: string, c: char, start: nat): (i: nat)
    requires start <= |s|
    ensures start <= i <= |s|
    decreases |s| - start
  {
    if start == |s| then |s| else if s[start] == c then start else FindFrom(s, c, start + 1)
  }

  /** The first index at or after `start` holding one of `cs` (`|s|` if there is none). */
  function FindAnyFrom(s: string, cs: set<char>, start: nat): (i: nat)
    requires start <= |s|
    ensures start <= i <= |s|
    decreases |s| - start
  {
    if start == |s| then |s| else if s[start] in cs then start else FindAnyFrom(s, cs, start + 1)
  }

  /** The last index below `end` holding `c` (`|s|` if there is none). */
  function FindLastBefore(s: string, c: char, end: nat): (i: nat)
    requires end <= |s|
    ensures i < end || i == |s|
  {
    if end == 0 then |s| else if s[end - 1] == c then end - 1 else FindLastBefore(s, c, end - 1)
  }

  /** `s.rfind(c)`, except that "not found" is `|s|` rather than -1. */
  function FindLast(s: string, c: char): (i: nat)
    ensures i <= |s|
  {
    FindLastBefore(s, c, |s|)
  }

  /** Every character is a scheme character. */
  predicate AllSchemeChars(s: string) {
    s == [] || (IsSchemeChar(s[0]) && AllSchemeChars(s[1..]))
  }

  /** The scheme test of `urlsplit`: a leading letter, then scheme characters up to the first ':'. */
  function SplitScheme(url: string): (string, string) {
    var i := FindFrom(url, ':', 0);
    if 0 < i < |url| && IsAsciiLetter(url[0]) && AllSchemeChars(url[..i])
    then (LowerStr(url[..i]), url[i + 1..])
    else ("", url)
  }

  predicate StartsWithTwoSlashes(s: string) { |s| >= 2 && s[0] == '/' && s[1] == '/' }

  /** `_splitnetloc(url, 2)`: the host runs from index 2 to the first '/', '?' or '#'. */
  function SplitNetloc(url: string): (string, string)
    requires 2 <= |url|
  {
    var delim := FindAnyFrom(url, {'/', '?', '#'}, 2);
    (url[2..delim], url[delim..])
  }

  /** `s.split(c, 1)` when `c` occurs in `s`, and `(s, "")` otherwise. */
  function SplitAtFirst(s: string, c: char): (string, string) {
    var i := FindFrom(s, c, 0);
    if i == |s| then (s, "") else (s[..i], s[i + 1..])
  }

  /** The test `urlsplit` makes before raising "Invalid IPv6 URL". */
  predicate BracketsBalanced(netloc: string) {
    (FindFrom(netloc, '[', 0) < |netloc|) == (FindFrom(netloc, ']', 0) < |netloc|)
  }

  /** `urlsplit`: scheme, host, path, query and fragment. */
  function SplitUrl(url: string): Parsed {
    var u := Sanitize(url);
    var (scheme, rest) := SplitScheme(u);
    var (netloc, rest') := if StartsWithTwoSlashes(rest) then SplitNetloc(rest) else ("", rest);
    if !BracketsBalanced(netloc) then ValueError
    else
      var (beforeHash, fragment) := SplitAtFirst(rest', '#');
      var (path, query) := SplitAtFirst(beforeHash, '?');
      Ok(Parts(scheme, netloc, path, "", query, fragment))
  }

  /** `_splitparams`: `;params` is cut off at the first ';' of the last path segment, or at
      the first ';' of all when there is no '/'. */
  function SplitParams(path: string): (string, string) {
    var slash := FindLast(path, '/');
    var i := FindFrom(path, ';', if slash < |path| then slash else 0);
    if i == |path| then (path, "") else (path[..i], path[i + 1..])
  }

  /** The params step of `urlparse`: only for the schemes in `UsesParams`, and only when the
      path has a ';'. */
  function SplitParamsFor(scheme: string, path: string): (string, string) {
    if Listed(scheme, UsesParams) && FindFrom(path, ';', 0) < |path| then SplitParams(path) else (path, "")
  }

  /** `urlparse(url)`. */
  function Parse(url: string): Parsed {
    match SplitUrl(url)
    case ValueError => ValueError
    case Ok(p) =>
      var (path, params) := SplitParamsFor(p.scheme, p.path);
      Ok(p.(path := path, params := params))
  }

  /** The first step of `urlunparse`: `;params` goes back on the path only when non-empty. */
  function JoinParams(path: string, params: string): string {
    if params == "" then path else path + ";" + params
  }

  /** The '/' that `urlunsplit` puts in front of a relative path that follows a host. */
  function FixSlash(path: string): string {
    if path != "" && path[0] != '/' then "/" + path else path
  }

  /** `urlunsplit` (CPython 3.13). */
  function Unsplit(scheme: string, netloc: string, path: string, query: string, fragment: string): string {
    var body :=
      if netloc != "" then "//" + netloc + FixSlash(path)
      else if StartsWithTwoSlashes(path) then "//" + path
      else if scheme != "" && Listed(scheme, UsesNetloc) && (path == "" || path[0] == '/') then "//" + path
      else path;
    var withScheme := if scheme != "" then scheme + ":" + body else body;
    var withQuery := if query != "" then withScheme + "?" + query else withScheme;
    if fragment != "" then withQuery + "#" + fragment else withQuery
  }

  /** `ParseResult.geturl()`, that is `urlunparse`. */
  function GetUrl(p: Parts): string {
    Unsplit(p.scheme, p.netloc, JoinParams(p.path, p.params), p.query, p.fragment)
  }

  // ----- what the search helpers compute -----

  lemma {:induction false} FindFromSpec(s: string, c: char, start: nat)
    requires start <= |s|
    ensures var i := FindFrom(s, c, start);
      (i < |s| ==> s[i] == c) && forall k :: start <= k < i ==> s[k] != c
    decreases |s| - start
  {
    if start < |s| && s[start] != c {
      FindFromSpec(s, c, start + 1);
    }
  }

  lemma FindFromIs(s: string, c: char, start: nat, i: nat)
    requires start <= i <= |s|
    requires i < |s| ==> s[i] == c
    requires forall k :: start <= k < i ==> s[k] != c
    ensures FindFrom(s, c, start) == i
  {
    FindFromSpec(s, c, start);
  }

  lemma {:induction false} FindAnyFromSpec(s: string, cs: set<char>, start: nat)
    requires start <= |s|
    ensures var i := FindAnyFrom(s, cs, start);
      (i < |s| ==> s[i] in cs) && forall k :: start <= k < i ==> s[k] !in cs
    decreases |s| - start
  {
    if start < |s| && s[start] !in cs {
      FindAnyFromSpec(s, cs, start + 1);
    }
  }

  lemma FindAnyFromIs(s: string, cs: set<char>, start: nat, i: nat)
    requires start <= i <= |s|
    requires i < |s| ==> s[i] in cs
    requires forall k :: start <= k < i ==> s[k] !in cs
    ensures FindAnyFrom(s, cs, start) == i
  {
    FindAnyFromSpec(s, cs, start);
  }

  lemma {:induction false} FindLastBeforeSpec(s: string, c: char, end: nat)
    requires end <= |s|
    ensures var i := FindLastBefore(s, c, end);
      (i < |s| ==> s[i] == c) && forall k :: (if i < |s| then i else -1) < k < end ==> s[k] != c
  {
    if end > 0 && s[end - 1] != c {
      FindLastBeforeSpec(s, c, end - 1);
    }
  }

  lemma FindLastSpec(s: string, c: char)
    ensures var i := FindLast(s, c);
      (i < |s| ==> s[i] == c) && forall k :: (if i < |s| then i else -1) < k < |s| ==> s[k] != c
  {
    FindLastBeforeSpec(s, c, |s|);
  }

  lemma {:induction false} FindLastBeforeIs(s: string, c: char, end: nat, i: nat)
    requires end <= |s|
    requires (i < end && s[i] == c) || i == |s|
    requires forall k :: (if i < |s| then i else -1) < k < end ==> s[k] != c
    ensures FindLastBefore(s, c, end) == i
    decreases end
  {
    if end > 0 && s[end - 1] != c {
      FindLastBeforeIs(s, c, end - 1, i);
    }
  }

  lemma {:induction false} AllSchemeCharsIff(s: string)
    ensures AllSchemeChars(s) <==> forall k :: 0 <= k < |s| ==> IsSchemeChar(s[k])
  {
    if s != [] {
      AllSchemeCharsIff(s[1..]);
      assert forall k :: 1 <= k < |s| ==> s[k] == s[1..][k - 1];
    }
  }

  lemma {:induction false} StripLeadingControlsSpec(s: string)
    ensures var r := StripLeadingControls(s); (r == [] || r[0] > ' ') && |r| <= |s|
  {
    if s != [] && s[0] <= ' ' {
      StripLeadingControlsSpec(s[1..]);
    }
  }

  lemma {:induction false} RemoveUnsafeSpec(s: string)
    ensures Avoids(RemoveUnsafe(s), {'\t', '\r', '\n'})
    ensures s != [] && !IsUnsafe(s[0]) ==> RemoveUnsafe(s) != [] && RemoveUnsafe(s)[0] == s[0]
    ensures Avoids(s, {'\t', '\r', '\n'}) ==> RemoveUnsafe(s) == s
  {
    if s != [] {
      RemoveUnsafeSpec(s[1..]);
      var head: string := if IsUnsafe(s[0]) then [] else [s[0]];
      var r := head + RemoveUnsafe(s[1..]);
      forall i | 0 <= i < |r| ensures r[i] !in {'\t', '\r', '\n'} {
        if i >= |head| { assert r[i] == RemoveUnsafe(s[1..])[i - |head|]; }
      }
      if Avoids(s, {'\t', '\r', '\n'}) {
        assert Avoids(s[1..], {'\t', '\r', '\n'}) by {
          forall i | 0 <= i < |s[1..]| ensures s[1..][i] !in {'\t', '\r', '\n'} { assert s[1..][i] == s[i + 1]; }
        }
        assert s == [s[0]] + s[1..];
      }
    }
  }

  /** `urlsplit`'s clean-up leaves no tab, CR or LF, and no control or space in front. */
  lemma SanitizeSpec(url: string)
    ensures Avoids(Sanitize(url), {'\t', '\r', '\n'})
    ensures Sanitize(url) == [] || Sanitize(url)[0] > ' '
  {
    StripLeadingControlsSpec(url);
    RemoveUnsafeSpec(StripLeadingControls(url));
  }

  lemma AvoidsSlice(s: string, cs: set<char>, a: nat, b: nat)
    requires Avoids(s, cs) && a <= b <= |s|
    ensures Avoids(s[a..b], cs)
  {
    forall i | 0 <= i < b - a ensures s[a..b][i] !in cs {
      assert s[a..b][i] == s[a + i];
    }
  }

  lemma SplitAtFirstAvoids(s: string, c: char, cs: set<char>)
    requires Avoids(s, cs)
    ensures Avoids(SplitAtFirst(s, c).0, cs + {c}) && Avoids(SplitAtFirst(s, c).1, cs)
  {
    var i := FindFrom(s, c, 0);
    FindFromSpec(s, c, 0);
    AvoidsSlice(s, cs, 0, i);
    if i < |s| {
      AvoidsSlice(s, cs, i + 1, |s|);
      assert s[..i] == s[0..i];
    } else {
      assert s == s[0..|s|];
    }
  }

  lemma SplitParamsAvoids(scheme: string, path: string, cs: set<char>)
    requires Avoids(path, cs)
    ensures Avoids(SplitParamsFor(scheme, path).0, cs) && Avoids(SplitParamsFor(scheme, path).1, cs)
  {
    var slash := FindLast(path, '/');
    var i := FindFrom(path, ';', if slash < |path| then slash else 0);
    if i < |path| {
      AvoidsSlice(path, cs, 0, i);
      AvoidsSlice(path, cs, i + 1, |path|);
      assert path[..i] == path[0..i];
    }
  }

  /** What every successful `urlparse` guarantees about the components. */
  predicate WellFormed(p: Parts) {
    && Avoids(p.netloc, {'/', '?', '#', '\t', '\r', '\n'}) && BracketsBalanced(p.netloc)
    && Avoids(p.path, {'?', '#', '\t', '\r', '\n'}) && Avoids(p.params, {'?', '#', '\t', '\r', '\n'})
    && Avoids(p.query, {'#', '\t', '\r', '\n'}) && Avoids(p.fragment, {'\t', '\r', '\n'})
  }

  /** After the scheme is cut off, what remains is still free of tabs and line breaks. */
  lemma SchemeRestAvoids(url: string)
    ensures Avoids(SplitScheme(Sanitize(url)).1, {'\t', '\r', '\n'})
  {
    var u := Sanitize(url);
    SanitizeSpec(url);
    if SplitScheme(u).1 != u {
      AvoidsSlice(u, {'\t', '\r', '\n'}, FindFrom(u, ':', 0) + 1, |u|);
    }
  }

  /** The host stops at the first '/', '?' or '#', and neither piece gains a tab or a line
      break. */
  lemma NetlocAvoids(rest: string)
    requires Avoids(rest, {'\t', '\r', '\n'})
    ensures var (netloc, rest') := if StartsWithTwoSlashes(rest) then SplitNetloc(rest) else ("", rest);
      Avoids(netloc, {'/', '?', '#', '\t', '\r', '\n'}) && Avoids(rest', {'\t', '\r', '\n'})
  {
    var unsafe := {'\t', '\r', '\n'};
    if StartsWithTwoSlashes(rest) {
      var delim := FindAnyFrom(rest, {'/', '?', '#'}, 2);
      FindAnyFromSpec(rest, {'/', '?', '#'}, 2);
      AvoidsSlice(rest, unsafe, 2, delim);
      AvoidsSlice(rest, unsafe, delim, |rest|);
      var n := rest[2..delim];
      forall i | 0 <= i < |n| ensures n[i] !in {'/', '?', '#', '\t', '\r', '\n'} {
        assert n[i] == rest[2 + i];
      }
    }
  }

  /** Every component `urlsplit` returns is free of the characters that delimit it. */
  lemma SplitUrlWellFormed(url: string)
    requires SplitUrl(url).Ok?
    ensures WellFormed(SplitUrl(url).parts)
  {
    var unsafe := {'\t', '\r', '\n'};
    var (scheme, rest) := SplitScheme(Sanitize(url));
    SchemeRestAvoids(url);
    NetlocAvoids(rest);
    var (netloc, rest') := if StartsWithTwoSlashes(rest) then SplitNetloc(rest) else ("", rest);
    SplitAtFirstAvoids(rest', '#', unsafe);
    var (beforeHash, fragment) := SplitAtFirst(rest', '#');
    SplitAtFirstAvoids(beforeHash, '?', unsafe + {'#'});
    assert unsafe + {'#'} + {'?'} == {'?', '#', '\t', '\r', '\n'};
    assert unsafe + {'#'} == {'#', '\t', '\r', '\n'};
  }

  /** Every component `urlparse` returns is free of the characters that delimit it. */
  lemma ParsedWellFormed(url: string)
    requires Parse(url).Ok?
    ensures WellFormed(Parse(url).parts)
  {
    SplitUrlWellFormed(url);
    SplitParamsAvoids(SplitUrl(url).parts.scheme, SplitUrl(url).parts.path, {'?', '#', '\t', '\r', '\n'});
  }

  /** Rejoining the params `urlparse` split off gives back the path, unless the cut was a
      trailing ';' with nothing after it. */
  lemma JoinSplitParams(scheme: string, path: string)
    requires path == "" || path[|path| - 1] != ';'
    ensures JoinParams(SplitParamsFor(scheme, path).0, SplitParamsFor(scheme, path).1) == path
  {
    var slash := FindLast(path, '/');
    var i := FindFrom(path, ';', if slash < |path| then slash else 0);
    FindFromSpec(path, ';', if slash < |path| then slash else 0);
    if i < |path| {
      assert path[i + 1..] != "";
      assert path == path[..i] + ";" + path[i + 1..];
    }
  }

  /** Splitting the params off again after putting them back changes nothing: the only
      path the round trip alters is one cut at a trailing ';', and that cut leaves no ';'
      after the last '/'. A path that starts with '/' keeps a non-empty part before the
      params. */
  /** What is left before the params cut has no ';' after its last '/'. */
  lemma CutHasNoParams(scheme: string, path: string, i: nat)
    requires i < |path|
    requires var slash := FindLast(path, '/'); i == FindFrom(path, ';', if slash < |path| then slash else 0)
    ensures SplitParamsFor(scheme, path[..i]) == (path[..i], "")
  {
    var slash := FindLast(path, '/');
    var a := path[..i];
    FindLastSpec(path, '/');
    FindFromSpec(path, ';', if slash < |path| then slash else 0);
    if slash < |path| {
      FindLastBeforeIs(a, '/', |a|, slash);
      FindFromIs(a, ';', slash, |a|);
    } else {
      FindLastBeforeIs(a, '/', |a|, |a|);
      FindFromIs(a, ';', 0, |a|);
    }
  }

  lemma SplitParamsSettled(scheme: string, path: string)
    ensures var (a, b) := SplitParamsFor(scheme, path);
      SplitParamsFor(scheme, JoinParams(a, b)) == (a, b)
    ensures var a := SplitParamsFor(scheme, path).0;
      path != "" && path[0] == '/' ==> a != "" && a[0] == '/'
  {
    var slash := FindLast(path, '/');
    var i := FindFrom(path, ';', if slash < |path| then slash else 0);
    if Listed(scheme, UsesParams) && FindFrom(path, ';', 0) < |path| && i < |path| {
      if path[i + 1..] == "" {
        CutHasNoParams(scheme, path, i);
      } else {
        FindFromSpec(path, ';', if slash < |path| then slash else 0);
        assert JoinParams(path[..i], path[i + 1..]) == path;
      }
      SplitParamsKeepsSlash(path);
    }
  }

  /** A path starting with '/' is never cut at index 0: the cut comes after its last '/'. */
  lemma SplitParamsKeepsSlash(path: string)
    ensures var slash := FindLast(path, '/');
      path != "" && path[0] == '/' ==> FindFrom(path, ';', if slash < |path| then slash else 0) > 0
  {
    var slash := FindLast(path, '/');
    FindLastSpec(path, '/');
    FindFromSpec(path, ';', if slash < |path| then slash else 0);
  }

  /** The query and fragment suffixes `urlunsplit` writes. */
  function QuerySuffix(query: string): string { if query == "" then "" else "?" + query }

  function FragmentSuffix(fragment: string): string { if fragment == "" then "" else "#" + fragment }

  /** A lowercase scheme `urlsplit` recognises. */
  predicate ValidScheme(s: string) {
    s != "" && IsAsciiLetter(s[0]) && (forall k :: 0 <= k < |s| ==> IsSchemeChar(s[k])) && LowerStr(s) == s
  }

  lemma HttpsScheme()
    ensures ValidScheme("https") && ValidScheme("http") && ValidScheme("file")
  {
    assert LowerStr("https") == "https";
    assert LowerStr("http") == "http";
    assert LowerStr("file") == "file";
  }

  /** A non-empty scheme `urlparse` returns is one it would recognise again. */
  lemma ParsedScheme(url: string)
    requires Parse(url).Ok? && Parse(url).parts.scheme != ""
    ensures ValidScheme(Parse(url).parts.scheme)
  {
    var u := Sanitize(url);
    var i := FindFrom(u, ':', 0);
    var s := LowerStr(u[..i]);
    assert Parse(url).parts.scheme == s;
    AllSchemeCharsIff(u[..i]);
    assert u[..i][0] == u[0];
    forall k | 0 <= k < |s| ensures IsSchemeChar(s[k]) {
      assert IsSchemeChar(u[..i][k]);
    }
    assert LowerStr(s) == s;
  }

  /** A host without brackets passes the bracket test. */
  lemma BalancedWithoutBrackets(n: string)
    requires Avoids(n, {'[', ']'})
    ensures BracketsBalanced(n)
  {
    FindFromSpec(n, '[', 0);
    FindFromSpec(n, ']', 0);
  }

  lemma SanitizeClean(y: string)
    requires y == [] || y[0] > ' '
    requires Avoids(y, {'\t', '\r', '\n'})
    ensures Sanitize(y) == y
  {
    RemoveUnsafeSpec(y);
  }

  lemma SplitSchemeOf(s: string, rest: string)
    requires ValidScheme(s)
    ensures SplitScheme(s + ":" + rest) == (s, rest)
  {
    var y := s + ":" + rest;
    FindFromIs(y, ':', 0, |s|);
    assert y[..|s|] == s;
    AllSchemeCharsIff(s);
    assert y[|s| + 1..] == rest;
  }

  lemma SplitNetlocOf(n: string, tail: string)
    requires Avoids(n, {'/', '?', '#'})
    requires tail == "" || tail[0] in {'/', '?', '#'}
    ensures SplitNetloc("//" + n + tail) == (n, tail)
  {
    var rest := "//" + n + tail;
    FindAnyFromIs(rest, {'/', '?', '#'}, 2, 2 + |n|);
    assert rest[2..2 + |n|] == n && rest[2 + |n|..] == tail;
  }

  lemma SplitAtFirstOf(a: string, c: char, b: string)
    requires c !in a
    ensures SplitAtFirst(a + [c] + b, c) == (a, b)
  {
    var y := a + [c] + b;
    FindFromIs(y, c, 0, |a|);
    assert y[..|a|] == a && y[|a| + 1..] == b;
  }

  lemma SplitAtFirstNone(a: string, c: char)
    requires c !in a
    ensures SplitAtFirst(a, c) == (a, "")
  {
    FindFromIs(a, c, 0, |a|);
  }

  /** A query or fragment suffix is its separator followed by the text, or nothing. */
  lemma SuffixAfter(a: string, c: char, t: string)
    ensures c == '?' ==> a + QuerySuffix(t) == if t == "" then a else a + [c] + t
    ensures c == '#' ==> a + FragmentSuffix(t) == if t == "" then a else a + [c] + t
  {
    if t != "" {
      assert a + ([c] + t) == a + [c] + t;
    }
  }

  lemma SplitFragmentOf(b: string, f: string)
    requires '#' !in b
    ensures SplitAtFirst(b + FragmentSuffix(f), '#') == (b, f)
  {
    SuffixAfter(b, '#', f);
    if f == "" {
      SplitAtFirstNone(b, '#');
    } else {
      SplitAtFirstOf(b, '#', f);
    }
  }

  lemma SplitQueryOf(u: string, q: string)
    requires '?' !in u
    ensures SplitAtFirst(u + QuerySuffix(q), '?') == (u, q)
  {
    SuffixAfter(u, '?', q);
    if q == "" {
      SplitAtFirstNone(u, '?');
    } else {
      SplitAtFirstOf(u, '?', q);
    }
  }

  lemma NoHashBeforeFragment(u: string, q: string)
    requires Avoids(u, {'?', '#'}) && Avoids(q, {'#'})
    ensures '#' !in u + QuerySuffix(q)
  {
    var b := u + QuerySuffix(q);
    forall i | 0 <= i < |b| ensures b[i] != '#' {
      if i < |u| { assert b[i] == u[i]; }
      else if i > |u| { assert b[i] == q[i - |u| - 1]; }
    }
  }

  lemma SplitQueryFragment(u: string, q: string, f: string)
    requires Avoids(u, {'?', '#'}) && Avoids(q, {'#'})
    ensures SplitAtFirst(u + QuerySuffix(q) + FragmentSuffix(f), '#') == (u + QuerySuffix(q), f)
    ensures SplitAtFirst(u + QuerySuffix(q), '?') == (u, q)
  {
    NoHashBeforeFragment(u, q);
    SplitFragmentOf(u + QuerySuffix(q), f);
    assert '?' !in u by {
      forall i | 0 <= i < |u| ensures u[i] != '?' { }
    }
    SplitQueryOf(u, q);
  }

  lemma AvoidsConcat(a: string, b: string, cs: set<char>)
    requires Avoids(a, cs) && Avoids(b, cs)
    ensures Avoids(a + b, cs)
  {
    forall i | 0 <= i < |a + b| ensures (a + b)[i] !in cs {
      if i >= |a| { assert (a + b)[i] == b[i - |a|]; }
    }
  }

  lemma AvoidsAbsolute(s: string, n: string, u: string, q: string, f: string)
    requires ValidScheme(s)
    requires Avoids(n, {'\t', '\r', '\n'}) && Avoids(u, {'\t', '\r', '\n'})
    requires Avoids(q, {'\t', '\r', '\n'}) && Avoids(f, {'\t', '\r', '\n'})
    ensures Avoids(s + "://" + n + u + QuerySuffix(q) + FragmentSuffix(f), {'\t', '\r', '\n'})
  {
    var unsafe := {'\t', '\r', '\n'};
    AvoidsConcat(s, "://", unsafe);
    AvoidsConcat(s + "://", n, unsafe);
    AvoidsConcat(s + "://" + n, u, unsafe);
    if q != "" { AvoidsConcat("?", q, unsafe); }
    AvoidsConcat(s + "://" + n + u, QuerySuffix(q), unsafe);
    if f != "" { AvoidsConcat("#", f, unsafe); }
    AvoidsConcat(s + "://" + n + u + QuerySuffix(q), FragmentSuffix(f), unsafe);
  }

  /** Regrouping the pieces of an absolute URL. */
  lemma AbsoluteSpelling(s: string, c1: string, c2: string, n: string, u: string, qs: string, fs: string)
    ensures s + c1 + (c2 + n + (u + qs + fs)) == s + (c1 + c2) + n + u + qs + fs
  {
    var l := s + c1 + (c2 + n + (u + qs + fs));
    var r := s + (c1 + c2) + n + u + qs + fs;
    assert |l| == |r|;
    forall k | 0 <= k < |l| ensures l[k] == r[k] {
    }
  }

  lemma SplitUrlAbsolute(s: string, n: string, u: string, q: string, f: string)
    requires ValidScheme(s)
    requires Avoids(n, {'/', '?', '#', '\t', '\r', '\n'}) && BracketsBalanced(n)
    requires u == "" || u[0] == '/'
    requires Avoids(u, {'?', '#', '\t', '\r', '\n'})
    requires Avoids(q, {'#', '\t', '\r', '\n'}) && Avoids(f, {'\t', '\r', '\n'})
    ensures SplitUrl(s + "://" + n + u + QuerySuffix(q) + FragmentSuffix(f)) == Ok(Parts(s, n, u, "", q, f))
  {
    var b := u + QuerySuffix(q);
    var tail := b + FragmentSuffix(f);
    var rest := "//" + n + tail;
    var y := s + ":" + rest;
    assert y == s + "://" + n + u + QuerySuffix(q) + FragmentSuffix(f) by {
      assert ":" + "//" == "://";
      AbsoluteSpelling(s, ":", "//", n, u, QuerySuffix(q), FragmentSuffix(f));
    }
    assert Sanitize(y) == y by {
      AvoidsAbsolute(s, n, u, q, f);
      SanitizeClean(y);
    }
    assert SplitScheme(y) == (s, rest) by {
      SplitSchemeOf(s, rest);
    }
    assert StartsWithTwoSlashes(rest);
    assert SplitNetloc(rest) == (n, tail) by {
      assert tail == "" || tail[0] in {'/', '?', '#'};
      SplitNetlocOf(n, tail);
    }
    assert SplitAtFirst(tail, '#') == (b, f) && SplitAtFirst(b, '?') == (u, q) by {
      SplitQueryFragment(u, q, f);
    }
  }

  /** `urlparse` reads back the components of a URL written as
      `scheme://netloc/path?query#fragment` from clean parts. */
  lemma ParseAbsolute(s: string, n: string, u: string, q: string, f: string)
    requires ValidScheme(s)
    requires Avoids(n, {'/', '?', '#', '\t', '\r', '\n'}) && BracketsBalanced(n)
    requires u == "" || u[0] == '/'
    requires Avoids(u, {'?', '#', '\t', '\r', '\n'})
    requires Avoids(q, {'#', '\t', '\r', '\n'}) && Avoids(f, {'\t', '\r', '\n'})
    ensures var y := s + "://" + n + u + QuerySuffix(q) + FragmentSuffix(f);
      Parse(y) == Ok(Parts(s, n, SplitParamsFor(s, u).0, SplitParamsFor(s, u).1, q, f))
  {
    SplitUrlAbsolute(s, n, u, q, f);
  }
}
