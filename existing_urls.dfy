/** `load_existing_urls_from_db` of the update harvesters (module_3/scrape_update.py and
    module_5/src/scrape_update.py): the non-NULL urls of `applicants`, each canonicalised
    with `_canonical_result_url`, the non-empty results collected in a set. module_5 asks
    for at most `max(1, min(MAX_DB_URL_FETCH, 100))` rows; module_3 for all of them. */
module ExistingUrls {
  import opened Util
  import opened ResultUrl

  const MaxDbUrlFetch: int := 100

  /** `max(1, min(n, 100))`: the LIMIT is clamped to 1..100. */
  function FetchLimit(n: int): (r: int)
    ensures 1 <= r <= 100
    ensures 1 <= n <= 100 ==> r == n
    ensures n < 1 ==> r == 1
    ensures n > 100 ==> r == 100
  {
    var m := if n < 100 then n else 100;
    if 1 < m then m else 1
  }

  /** The non-NULL urls of the column, in the order the database produces them. */
  function NonNull(column: seq<Option<string>>): (r: seq<string>)
    ensures |r| <= |column|
  {
    if column == [] then []
    else
      var last := column[|column| - 1];
      NonNull(column[..|column| - 1]) + (if last.Some? then [last.value] else [])
  }

  /** The urls `SELECT url FROM applicants WHERE url IS NOT NULL [LIMIT n]` returns, for the
      url column in the order the database scans it. */
  function Selected(column: seq<Option<string>>, limit: Option<nat>): (r: seq<string>)
    ensures limit.Some? ==> |r| <= limit.value
    ensures r <= NonNull(column)
  {
    var all := NonNull(column);
    if limit.Some? && limit.value < |all| then all[..limit.value] else all
  }

  /** A canonicalisation of an optional url, such as `_canonical_result_url`. */
  type Canon = Option<string> -> Option<string>

  /** The set the loop builds: the canonical form of each url, when it is non-empty. */
  function CanonicalSet(canon: Canon, urls: seq<string>): (r: set<string>)
    ensures |r| <= |urls|
  {
    if urls == [] then {}
    else
      var c := canon(Some(urls[|urls| - 1]));
      var init := CanonicalSet(canon, urls[..|urls| - 1]);
      if c.Some? && c.value != "" then init + {c.value} else init
  }

  /** A url is collected exactly when it is the non-empty canonical form of a fetched url. */
  lemma {:induction false} CanonicalSetIff(canon: Canon, urls: seq<string>, x: string)
    ensures x in CanonicalSet(canon, urls) <==>
      x != "" && exists i :: 0 <= i < |urls| && canon(Some(urls[i])) == Some(x)
  {
    if urls != [] {
      var init := urls[..|urls| - 1];
      CanonicalSetIff(canon, init, x);
      if exists i :: 0 <= i < |urls| && canon(Some(urls[i])) == Some(x) {
        var i :| 0 <= i < |urls| && canon(Some(urls[i])) == Some(x);
        if i < |init| {
          assert init[i] == urls[i];
        }
      }
      if exists i :: 0 <= i < |init| && canon(Some(init[i])) == Some(x) {
        var i :| 0 <= i < |init| && canon(Some(init[i])) == Some(x);
        assert urls[i] == init[i];
      }
    }
  }

  /** `load_existing_urls_from_db` on the url column of the table; `limit` is the LIMIT of
      module_5's query and None for module_3's. */
  method LoadExistingUrls(column: seq<Option<string>>, limit: Option<nat>) returns (urls: set<string>)
    ensures urls == CanonicalSet(CanonicalResultUrl, Selected(column, limit))
  {
    var fetched := Selected(column, limit);
    urls := {};
    var i := 0;
    while i < |fetched|
      invariant 0 <= i <= |fetched|
      invariant urls == CanonicalSet(CanonicalResultUrl, fetched[..i])
    {
      var u := CanonicalResultUrl(Some(fetched[i]));
      assert fetched[..i + 1][..i] == fetched[..i];
      if u.Some? && u.value != "" {
        urls := urls + {u.value};
      }
      i := i + 1;
    }
    assert fetched[..i] == fetched;
  }

  /** module_5 collects at most 100 urls. */
  lemma AtMostLimit(column: seq<Option<string>>)
    ensures |CanonicalSet(CanonicalResultUrl, Selected(column, Some(FetchLimit(MaxDbUrlFetch))))| <= 100
  {
  }

  /** Every collected url not ending in ';' is its own canonical form, so a scraped url whose
      canonical form equals a stored one is recognised as already seen. */
  lemma CollectedAreCanonical(urls: seq<string>, x: string)
    requires x in CanonicalSet(CanonicalResultUrl, urls) && !EndsWith(x, ";")
    ensures CanonicalResultUrl(Some(x)) == Some(x)
  {
    CanonicalSetIff(CanonicalResultUrl, urls, x);
    var i :| 0 <= i < |urls| && CanonicalResultUrl(Some(urls[i])) == Some(x);
    CanonicalIdempotent(Some(urls[i]));
  }
}
