/** The `/result/<id>` URL helpers of the harvester: `_canonical_result_url` in its two
    forms (the later revisions force `https` and the `www.` host; the original only drops
    query and fragment) and `_valid_result_url`. */
module ResultUrl {
  import opened Util
  import opened UrlParse

  const Host := "www.thegradcafe.com"

  /** The host rule of the later revisions: an empty host or the bare domain become `Host`. */
  function ForcedHost(netloc: string): string {
    var n := if netloc == "" then Host else netloc;
    if n == "thegradcafe.com" then Host else n
  }

  /** `_canonical_result_url` of the update harvester: force `https`, force the `www.`
      host, drop query and fragment. A URL `urlparse` rejects comes back unchanged. */
  function CanonicalResultUrl(url: Option<string>): (r: Option<string>)
    ensures r == None <==> url == None || url.value == ""
    ensures url.Some? && url.value != "" && Parse(url.value) == ValueError ==> r == url
  {
    if url == None || url.value == "" then None
    else
      match Parse(url.value)
      case ValueError => url
      case Ok(p) => Some(GetUrl(p.(scheme := "https", netloc := ForcedHost(p.netloc), query := "", fragment := "")))
  }

  /** `_valid_result_url`: a non-empty URL whose host ends with "thegradcafe.com" and whose
      path starts with "/result/"; a URL `urlparse` rejects is not valid. */
  predicate ValidResultUrl(url: Option<string>) {
    && url.Some? && url.value != ""
    && match Parse(url.value)
       case ValueError => false
       case Ok(p) => EndsWith(p.netloc, "thegradcafe.com") && StartsWith(p.path, "/result/")
  }

  /** The path part of a canonical URL: the parsed path with its params put back. */
  function CanonicalPath(p: Parts): string {
    FixSlash(JoinParams(p.path, p.params))
  }

  /** A host made of letters, digits and dots has no delimiter and no bracket. */
  lemma PlainHost(n: string)
    requires forall k :: 0 <= k < |n| ==> IsAsciiLetter(n[k]) || IsDigit(n[k]) || n[k] == '.'
    ensures Avoids(n, {'/', '?', '#', '\t', '\r', '\n'}) && BracketsBalanced(n)
  {
    assert Avoids(n, {'[', ']'});
    BalancedWithoutBrackets(n);
  }

  lemma PlainHostWww()
    ensures Avoids(Host, {'/', '?', '#', '\t', '\r', '\n'}) && BracketsBalanced(Host)
  {
    PlainHost(Host);
  }

  lemma PlainHostBare()
    ensures Avoids("thegradcafe.com", {'/', '?', '#', '\t', '\r', '\n'}) && BracketsBalanced("thegradcafe.com")
  {
    PlainHost("thegradcafe.com");
  }

  lemma PlainHosts()
    ensures Avoids(Host, {'/', '?', '#', '\t', '\r', '\n'}) && BracketsBalanced(Host)
    ensures Avoids("thegradcafe.com", {'/', '?', '#', '\t', '\r', '\n'}) && BracketsBalanced("thegradcafe.com")
  {
    PlainHostWww();
    PlainHostBare();
  }

  lemma ForcedHostWellFormed(netloc: string)
    requires Avoids(netloc, {'/', '?', '#', '\t', '\r', '\n'}) && BracketsBalanced(netloc)
    ensures Avoids(ForcedHost(netloc), {'/', '?', '#', '\t', '\r', '\n'}) && BracketsBalanced(ForcedHost(netloc))
    ensures ForcedHost(netloc) != "" && ForcedHost(netloc) != "thegradcafe.com"
  {
    if ForcedHost(netloc) == Host {
      PlainHosts();
    }
  }

  lemma CanonicalPathWellFormed(p: Parts)
    requires WellFormed(p)
    ensures var u := CanonicalPath(p); (u == "" || u[0] == '/') && Avoids(u, {'?', '#', '\t', '\r', '\n'})
  {
    var cs := {'?', '#', '\t', '\r', '\n'};
    if p.params != "" {
      AvoidsConcat(p.path, ";", cs);
      AvoidsConcat(p.path + ";", p.params, cs);
    }
    var j := JoinParams(p.path, p.params);
    if j != "" && j[0] != '/' {
      AvoidsConcat("/", j, cs);
    }
  }

  /** `geturl()` of components with a scheme, a host and no query or fragment. */
  lemma GetUrlAbsolute(p: Parts)
    requires p.scheme != "" && p.netloc != "" && p.query == "" && p.fragment == ""
    ensures GetUrl(p) == p.scheme + "://" + p.netloc + CanonicalPath(p)
  {
    var u := CanonicalPath(p);
    assert p.scheme + ":" + ("//" + p.netloc + u) == p.scheme + "://" + p.netloc + u;
  }

  /** How `<scheme>://<host><path>` built from the path and params of well-formed
      components parses back. */
  lemma ParseRebuilt(s: string, n: string, p: Parts)
    requires ValidScheme(s) && WellFormed(p)
    requires Avoids(n, {'/', '?', '#', '\t', '\r', '\n'}) && BracketsBalanced(n)
    ensures var u := CanonicalPath(p);
      Parse(s + "://" + n + u) == Ok(Parts(s, n, SplitParamsFor(s, u).0, SplitParamsFor(s, u).1, "", ""))
  {
    CanonicalPathWellFormed(p);
    var u := CanonicalPath(p);
    assert s + "://" + n + u + QuerySuffix("") + FragmentSuffix("") == s + "://" + n + u by {
      assert QuerySuffix("") + FragmentSuffix("") == "";
    }
    ParseAbsolute(s, n, u, "", "");
  }

  lemma HttpsJoin(n: string, u: string)
    ensures "https" + "://" + n + u == "https://" + n + u
  {
    assert "https" + "://" == "https://";
  }

  /** The canonical URL is `https://<host>` followed by the parsed path and params. */
  lemma CanonicalShape(x: string, p: Parts)
    requires x != "" && Parse(x) == Ok(p)
    ensures CanonicalResultUrl(Some(x)) == Some("https://" + ForcedHost(p.netloc) + CanonicalPath(p))
  {
    var c := p.(scheme := "https", netloc := ForcedHost(p.netloc), query := "", fragment := "");
    assert CanonicalPath(c) == CanonicalPath(p);
    HttpsJoin(c.netloc, CanonicalPath(p));
    GetUrlAbsolute(c);
  }

  /** How a canonical URL parses back. */
  lemma ParseCanonical(x: string, p: Parts)
    requires x != "" && Parse(x) == Ok(p)
    ensures var u := CanonicalPath(p);
      Parse(CanonicalResultUrl(Some(x)).value) ==
        Ok(Parts("https", ForcedHost(p.netloc), SplitParamsFor("https", u).0, SplitParamsFor("https", u).1, "", ""))
  {
    var n := ForcedHost(p.netloc);
    var u := CanonicalPath(p);
    HttpsJoin(n, u);
    CanonicalShape(x, p);
    ParsedWellFormed(x);
    ForcedHostWellFormed(p.netloc);
    HttpsScheme();
    ParseRebuilt("https", n, p);
  }

  /** The canonical URL parses back with scheme "https", the forced host, and no query
      or fragment. */
  lemma CanonicalReparse(x: string, p: Parts)
    requires x != "" && Parse(x) == Ok(p)
    ensures var r := CanonicalResultUrl(Some(x)).value;
      && Parse(r).Ok?
      && Parse(r).parts.scheme == "https"
      && Parse(r).parts.netloc == ForcedHost(p.netloc)
      && Parse(r).parts.query == "" && Parse(r).parts.fragment == ""
  {
    ParseCanonical(x, p);
  }

  /** Canonicalising a canonical URL changes nothing, as long as it does not end in ';'
      (see `CanonicalTrailingSemicolon`). A URL `urlparse` rejects is its own canonical
      form. */
  lemma CanonicalIdempotent(url: Option<string>)
    requires CanonicalResultUrl(url) == None || !EndsWith(CanonicalResultUrl(url).value, ";")
    ensures CanonicalResultUrl(CanonicalResultUrl(url)) == CanonicalResultUrl(url)
  {
    if url.Some? && url.value != "" && Parse(url.value).Ok? {
      var x := url.value;
      var p := Parse(x).parts;
      var y := CanonicalResultUrl(url).value;
      var u := CanonicalPath(p);
      ParseCanonical(x, p);
      CanonicalShape(x, p);
      assert u == "" || u[|u| - 1] == y[|y| - 1];
      JoinSplitParams("https", u);
      var q := Parse(y).parts;
      CanonicalShape(y, q);
      assert CanonicalPath(q) == u;
    }
  }

  /** The canonical form of an https URL built from a well-formed path is a fixed point. */
  /** Parts that canonicalisation writes back as they are: the forced host, and a path
      that already starts with '/' and splits into the same path and params again. */
  predicate SettledParts(q: Parts) {
    var w := JoinParams(q.path, q.params);
    ForcedHost(q.netloc) == q.netloc && CanonicalPath(q) == w && SplitParamsFor("https", w) == (q.path, q.params)
  }

  /** The parts of `https://<n><u>` for a forced host and a path starting with '/'. */
  lemma HttpsPartsSettled(n: string, u: string)
    requires n != "" && n != "thegradcafe.com" && (u == "" || u[0] == '/')
    ensures SettledParts(Parts("https", n, SplitParamsFor("https", u).0, SplitParamsFor("https", u).1, "", ""))
  {
    SplitParamsSettled("https", u);
    var w := JoinParams(SplitParamsFor("https", u).0, SplitParamsFor("https", u).1);
    assert w == "" || w[0] == '/';
  }

  /** A canonical URL parses into settled parts. */
  lemma CanonicalParsesSettled(x: string, p: Parts)
    requires x != "" && Parse(x) == Ok(p)
    ensures var y := CanonicalResultUrl(Some(x)).value; y != "" && Parse(y).Ok? && SettledParts(Parse(y).parts)
  {
    ParsedWellFormed(x);
    CanonicalPathWellFormed(p);
    ForcedHostWellFormed(p.netloc);
    ParseCanonical(x, p);
    HttpsPartsSettled(ForcedHost(p.netloc), CanonicalPath(p));
  }

  /** Canonicalising a URL whose parts are settled, twice, is canonicalising it once. */
  lemma CanonicalOfSettled(y: string, q: Parts)
    requires y != "" && Parse(y) == Ok(q) && SettledParts(q)
    ensures CanonicalResultUrl(CanonicalResultUrl(Some(y))) == CanonicalResultUrl(Some(y))
  {
    CanonicalShape(y, q);
    var z := CanonicalResultUrl(Some(y)).value;
    ParseCanonical(y, q);
    var r := Parse(z).parts;
    assert r.path == q.path && r.params == q.params;
    CanonicalShape(z, r);
  }

  lemma CanonicalOfCanonical(x: string, p: Parts)
    requires x != "" && Parse(x) == Ok(p)
    ensures var y := CanonicalResultUrl(Some(x));
      CanonicalResultUrl(CanonicalResultUrl(y)) == CanonicalResultUrl(y)
  {
    CanonicalParsesSettled(x, p);
    var y := CanonicalResultUrl(Some(x)).value;
    CanonicalOfSettled(y, Parse(y).parts);
  }

  /** Canonicalising twice reaches a fixed point: whatever a third pass is given, it
      changes nothing. (One pass is not always enough; see `CanonicalTrailingSemicolon`.) */
  lemma CanonicalSettles(url: Option<string>)
    ensures var y := CanonicalResultUrl(CanonicalResultUrl(url));
      CanonicalResultUrl(y) == y
  {
    if url.Some? && url.value != "" && Parse(url.value).Ok? {
      CanonicalOfCanonical(url.value, Parse(url.value).parts);
    }
  }

  lemma HttpsSplitsParams()
    ensures Listed("https", UsesParams)
  {
    ListedIff("https", UsesParams);
    assert UsesParams[6] == "https";
  }

  lemma FileNotUsesParams()
    ensures "file" !in UsesParams
  {
  }

  lemma FileKeepsParams()
    ensures !Listed("file", UsesParams)
  {
    FileNotUsesParams();
    ListedIff("file", UsesParams);
  }

  /** In "/result/<digits>;" the last '/' is at 7 and the only ';' is the last character. */
  lemma SemicolonPathIndices(id: string)
    requires AllDigits(id)
    ensures var u := "/result/" + id + ";";
      FindFrom(u, ';', 0) < |u| && SplitParams(u) == ("/result/" + id, "")
  {
    var u := "/result/" + id + ";";
    forall k | 8 <= k < |u| - 1 ensures u[k] != '/' && u[k] != ';' {
      assert u[k] == id[k - 8];
    }
    assert u[7] == '/' && u[|u| - 1] == ';';
    FindLastSpec(u, '/');
    FindFromIs(u, ';', 7, |u| - 1);
    FindFromIs(u, ';', 0, |u| - 1);
    assert u[|u|..] == "";
    assert u[..|u| - 1] == "/result/" + id;
  }

  /** How a `/result/<digits>;` path is split: "https" cuts off the empty params. */
  lemma SemicolonPathHttps(id: string)
    requires AllDigits(id)
    ensures SplitParamsFor("https", "/result/" + id + ";") == ("/result/" + id, "")
  {
    HttpsSplitsParams();
    SemicolonPathIndices(id);
  }

  /** ... while "file" does not split params at all. */
  lemma SemicolonPathFile(id: string)
    ensures SplitParamsFor("file", "/result/" + id + ";") == ("/result/" + id + ";", "")
  {
    FileKeepsParams();
  }

  lemma SemicolonPathClean(id: string)
    requires AllDigits(id)
    ensures Avoids("/result/" + id + ";", {'?', '#', '\t', '\r', '\n'})
  {
    var u := "/result/" + id + ";";
    forall k | 0 <= k < |u| ensures u[k] !in {'?', '#', '\t', '\r', '\n'} {
      if 8 <= k < |u| - 1 { assert u[k] == id[k - 8]; }
    }
  }

  /** How `https://<Host>/result/<digits>;` parses: the empty params are cut off. */
  lemma ParseHttpsSemicolon(id: string)
    requires AllDigits(id)
    ensures Parse("https://" + Host + "/result/" + id + ";") == Ok(Parts("https", Host, "/result/" + id, "", "", ""))
  {
    var u := "/result/" + id + ";";
    assert "https://" + Host + "/result/" + id + ";" == "https" + "://" + Host + u + QuerySuffix("") + FragmentSuffix("") by {
      assert "https://" + Host + "/result/" == "https" + "://" + Host + "/result/";
    }
    assert Avoids(u, {'?', '#', '\t', '\r', '\n'}) by { SemicolonPathClean(id); }
    assert Avoids(Host, {'/', '?', '#', '\t', '\r', '\n'}) && BracketsBalanced(Host) by { ForcedHostWellFormed(""); }
    assert ValidScheme("https") by { HttpsScheme(); }
    assert SplitParamsFor("https", u) == ("/result/" + id, "") by { SemicolonPathHttps(id); }
    ParseAbsolute("https", Host, u, "", "");
  }

  /** How `file:///result/<digits>;` parses: no host, and the ';' stays on the path. */
  lemma ParseFileSemicolon(id: string)
    requires AllDigits(id)
    ensures Parse("file:///result/" + id + ";") == Ok(Parts("file", "", "/result/" + id + ";", "", "", ""))
  {
    var u := "/result/" + id + ";";
    assert "file:///result/" + id + ";" == "file" + "://" + "" + u + QuerySuffix("") + FragmentSuffix("") by {
      assert "file:///result/" == "file" + "://" + "" + "/result/";
    }
    assert Avoids(u, {'?', '#', '\t', '\r', '\n'}) by { SemicolonPathClean(id); }
    assert BracketsBalanced("") by { BalancedWithoutBrackets(""); }
    assert ValidScheme("file") by { HttpsScheme(); }
    assert SplitParamsFor("file", u) == (u, "") by { SemicolonPathFile(id); }
    ParseAbsolute("file", "", u, "", "");
  }

  /** The first pass over `file:///result/<digits>;` keeps the ';'. */
  lemma CanonicalFileSemicolon(id: string)
    requires AllDigits(id)
    ensures CanonicalResultUrl(Some("file:///result/" + id + ";")) == Some("https://" + Host + "/result/" + id + ";")
  {
    var u := "/result/" + id + ";";
    var p := Parts("file", "", u, "", "", "");
    assert "https://" + Host + u == "https://" + Host + "/result/" + id + ";";
    ParseFileSemicolon(id);
    CanonicalShape("file:///result/" + id + ";", p);
  }

  /** The canonical form is not idempotent on a URL whose scheme does not split params
      and whose path ends in ';': the first pass keeps the ';', the second drops it. */
  lemma CanonicalTrailingSemicolon(id: string)
    requires AllDigits(id)
    ensures var y := "https://" + Host + "/result/" + id + ";";
      && CanonicalResultUrl(Some("file:///result/" + id + ";")) == Some(y)
      && CanonicalResultUrl(Some(y)) == Some("https://" + Host + "/result/" + id)
  {
    var y := "https://" + Host + "/result/" + id + ";";
    var q := Parts("https", Host, "/result/" + id, "", "", "");
    CanonicalFileSemicolon(id);
    ParseHttpsSemicolon(id);
    CanonicalShape(y, q);
    assert "https://" + Host + CanonicalPath(q) == "https://" + Host + "/result/" + id;
  }

  // ----- the original harvester's form -----

  /** The URL of the original harvester is `scheme://host` followed by the parsed path and
      params, with the scheme and host as they were. */
  lemma KeptShape(x: string, p: Parts)
    requires x != "" && Parse(x) == Ok(p) && p.scheme != "" && p.netloc != ""
    ensures KeptResultUrl(Some(x)) == Some(p.scheme + "://" + p.netloc + CanonicalPath(p))
  {
    var c := p.(query := "", fragment := "");
    assert CanonicalPath(c) == CanonicalPath(p);
    GetUrlAbsolute(c);
  }

  /** The original harvester's URL parses back with the same scheme and host and with no
      query or fragment, for a URL that has a scheme and a host. */
  lemma KeptReparse(x: string, p: Parts)
    requires x != "" && Parse(x) == Ok(p) && p.scheme != "" && p.netloc != ""
    ensures var u := CanonicalPath(p);
      Parse(KeptResultUrl(Some(x)).value) ==
        Ok(Parts(p.scheme, p.netloc, SplitParamsFor(p.scheme, u).0, SplitParamsFor(p.scheme, u).1, "", ""))
  {
    ParsedWellFormed(x);
    ParsedScheme(x);
    KeptShape(x, p);
    ParseRebuilt(p.scheme, p.netloc, p);
  }

  /** The original harvester's form is idempotent on URLs with a scheme and a host, as long
      as the result does not end in ';'. */
  lemma KeptIdempotent(x: string, p: Parts)
    requires x != "" && Parse(x) == Ok(p) && p.scheme != "" && p.netloc != ""
    requires !EndsWith(KeptResultUrl(Some(x)).value, ";")
    ensures KeptResultUrl(KeptResultUrl(Some(x))) == KeptResultUrl(Some(x))
  {
    var y := KeptResultUrl(Some(x)).value;
    var u := CanonicalPath(p);
    KeptReparse(x, p);
    KeptShape(x, p);
    assert u == "" || u[|u| - 1] == y[|y| - 1];
    JoinSplitParams(p.scheme, u);
    var q := Parse(y).parts;
    KeptShape(y, q);
    assert CanonicalPath(q) == u;
  }

  /** `_canonical_result_url` of the original harvester: drop query and fragment, keep
      everything else. */
  function KeptResultUrl(url: Option<string>): (r: Option<string>)
    ensures r == None <==> url == None || url.value == ""
    ensures url.Some? && url.value != "" && Parse(url.value) == ValueError ==> r == url
  {
    if url == None || url.value == "" then None
    else
      match Parse(url.value)
      case ValueError => url
      case Ok(p) => Some(GetUrl(p.(query := "", fragment := "")))
  }

  /** A canonical URL is valid exactly when the original host (after the host rule) ends
      with "thegradcafe.com" and the original path starts with "/result/". */
  lemma ValidCanonical(x: string, p: Parts)
    requires x != "" && Parse(x) == Ok(p)
    ensures ValidResultUrl(CanonicalResultUrl(Some(x))) <==>
      EndsWith(ForcedHost(p.netloc), "thegradcafe.com") && StartsWith(CanonicalPath(p), "/result/")
  {
    ParseCanonical(x, p);
    SplitParamsKeepsResultPrefix("https", CanonicalPath(p));
  }

  /** Cutting `;params` off a path never cuts into a leading "/result/". */
  lemma SplitParamsKeepsResultPrefix(scheme: string, path: string)
    ensures StartsWith(SplitParamsFor(scheme, path).0, "/result/") <==> StartsWith(path, "/result/")
  {
    if Listed(scheme, UsesParams) && FindFrom(path, ';', 0) < |path| {
      var slash := FindLast(path, '/');
      var start := if slash < |path| then slash else 0;
      var i := FindFrom(path, ';', start);
      FindLastSpec(path, '/');
      FindFromSpec(path, ';', start);
      if i < |path| {
        var r := path[..i];
        if StartsWith(path, "/result/") {
          assert path[7] == '/';
          assert i != 7;
          assert r[..8] == path[..8];
        }
        if StartsWith(r, "/result/") {
          assert path[..8] == r[..8];
        }
      }
    }
  }

  /** A path "/result/<digits>" has nothing `urlparse` would cut off. */
  lemma ResultPathClean(id: string)
    requires AllDigits(id)
    ensures var u := "/result/" + id;
      u[0] == '/' && Avoids(u, {'?', '#', '\t', '\r', '\n', ';'}) && FindFrom(u, ';', 0) == |u|
  {
    var u := "/result/" + id;
    forall k | 0 <= k < |u| ensures u[k] !in {'?', '#', '\t', '\r', '\n', ';'} {
      if k >= 8 { assert u[k] == id[k - 8]; }
    }
    FindFromIs(u, ';', 0, |u|);
  }

  lemma BareDomainSpelling(id: string, q: string)
    requires q != ""
    ensures "http://thegradcafe.com/result/" + id + "?" + q == "http" + "://" + "thegradcafe.com" + ("/result/" + id) + QuerySuffix(q) + FragmentSuffix("")
  {
    assert "http://thegradcafe.com/result/" == "http" + "://" + "thegradcafe.com" + "/result/";
  }

  /** How the harvester's example URL parses, for any result id and query. */
  lemma ParseBareDomain(id: string, q: string)
    requires AllDigits(id) && q != "" && Avoids(q, {'#', '\t', '\r', '\n'})
    ensures Parse("http://thegradcafe.com/result/" + id + "?" + q) == Ok(Parts("http", "thegradcafe.com", "/result/" + id, "", q, ""))
  {
    var u := "/result/" + id;
    BareDomainSpelling(id, q);
    assert Avoids(u, {'?', '#', '\t', '\r', '\n'}) && SplitParamsFor("http", u) == (u, "") by {
      ResultPathClean(id);
    }
    assert Avoids("thegradcafe.com", {'/', '?', '#', '\t', '\r', '\n'}) && BracketsBalanced("thegradcafe.com") by {
      PlainHosts();
    }
    assert ValidScheme("http") by { HttpsScheme(); }
    ParseAbsolute("http", "thegradcafe.com", u, q, "");
  }

  lemma CanonicalPrefix()
    ensures "https://" + Host + "/result/" == "https://www.thegradcafe.com/result/"
  {
  }

  /** The harvester's example for any result id: an `http` URL on the bare domain with a
      query becomes the `https` URL on the `www.` host without it. */
  lemma CanonicalBareDomain(id: string, q: string)
    requires AllDigits(id) && q != "" && Avoids(q, {'#', '\t', '\r', '\n'})
    ensures CanonicalResultUrl(Some("http://thegradcafe.com/result/" + id + "?" + q)) == Some("https://www.thegradcafe.com/result/" + id)
  {
    var u := "/result/" + id;
    var x := "http://thegradcafe.com/result/" + id + "?" + q;
    var p := Parts("http", "thegradcafe.com", u, "", q, "");
    assert "https://" + Host + u == "https://www.thegradcafe.com/result/" + id by {
      CanonicalPrefix();
    }
    ParseBareDomain(id, q);
    CanonicalShape(x, p);
  }

  /** ... and the URL it becomes is a valid result URL. */
  lemma ValidBareDomain(id: string, q: string)
    requires AllDigits(id) && q != "" && Avoids(q, {'#', '\t', '\r', '\n'})
    ensures ValidResultUrl(CanonicalResultUrl(Some("http://thegradcafe.com/result/" + id + "?" + q)))
  {
    var u := "/result/" + id;
    var x := "http://thegradcafe.com/result/" + id + "?" + q;
    var p := Parts("http", "thegradcafe.com", u, "", q, "");
    assert EndsWith(ForcedHost(p.netloc), "thegradcafe.com") && StartsWith(CanonicalPath(p), "/result/");
    ParseBareDomain(id, q);
    ValidCanonical(x, p);
  }

  /** The harvester's example of a foreign URL: "https://example.com/test" is not a result
      URL, because its host does not end with "thegradcafe.com". */
  /** `https://example.com/test` parses with host "example.com". */
  lemma ExampleComParses()
    ensures Parse("https://example.com/test").Ok? && Parse("https://example.com/test").parts.netloc == "example.com"
  {
    assert "https://example.com/test" == "https" + "://" + "example.com" + "/test" + QuerySuffix("") + FragmentSuffix("");
    assert Avoids("example.com", {'/', '?', '#', '\t', '\r', '\n'}) && BracketsBalanced("example.com") by {
      PlainHost("example.com");
    }
    assert Avoids("/test", {'?', '#', '\t', '\r', '\n'});
    assert ValidScheme("https") by { HttpsScheme(); }
    ParseAbsolute("https", "example.com", "/test", "", "");
  }

  lemma ExampleComInvalid()
    ensures !ValidResultUrl(Some("https://example.com/test"))
  {
    ExampleComParses();
    assert !EndsWith("example.com", "thegradcafe.com");
  }
}
