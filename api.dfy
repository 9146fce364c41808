/**
 * The decisions clApi and clDownload take around a download: the request's cache key,
 * when the cache is read and written, the one download per instance behind parse(), the
 * status predicate and the content-type checks. The transport is not modelled: what the
 * server would answer is a parameter.
 */
module Api {
  import opened Wrappers
  import opened Php
  import opened Assoc
  import opened Cache

  const MethodGet := "get"
  const MethodPost := "post"

  /** The parts of a clDownload the decisions read: HTTP status, content type and body. */
  datatype Download = Download(status: int, contentType: string, content: string)

  // ---------------------------------------------------------------------------------------
  // The request's identity
  // ---------------------------------------------------------------------------------------

  /** `http_build_query($params)`: `key=value` pairs joined with `&`, in the array's order. */
  function BuildQuery(params: seq<Entry<string>>): (qs: string)
    ensures qs == [] <==> params == []
  {
    if params == [] then []
    else
      var init := BuildQuery(params[..|params| - 1]);
      var pair := params[|params| - 1].key + "=" + params[|params| - 1].val;
      if init == [] then pair else init + "&" + pair
  }

  /** The URL requested: a GET carries the query string, any other method sends it in the body. */
  function RequestUrl(verb: string, url: string, qs: string): string {
    if verb == MethodGet then url + (if Truthy(qs) then "?" + qs else "") else url
  }

  /** The cache key: the hash of method, user, password, URL and query string, concatenated. */
  function CacheKey(verb: string, user: string, pass: string, url: string, qs: string): (k: string)
    ensures verb == MethodGet && Truthy(qs) ==> k == verb + user + pass + url + "?" + qs + qs
    ensures verb == MethodGet && !Truthy(qs) ==> k == verb + user + pass + url + qs
    ensures verb != MethodGet ==> k == verb + user + pass + url + qs
  {
    var who := verb + user + pass;
    if verb == MethodGet && Truthy(qs) then
      AppendAssoc(who, url, "?" + qs);
      AppendAssoc(who + url, "?", qs);
      who + RequestUrl(verb, url, qs) + qs
    else
      assert RequestUrl(verb, url, qs) == url;
      who + RequestUrl(verb, url, qs) + qs
  }

  /** A GET and a POST of the same request never share a cache entry. */
  lemma MethodsApart(user: string, pass: string, url: string, qs: string, user': string, pass': string, url': string, qs': string)
    ensures CacheKey(MethodGet, user, pass, url, qs) != CacheKey(MethodPost, user', pass', url', qs')
  {
    var g, p := CacheKey(MethodGet, user, pass, url, qs), CacheKey(MethodPost, user', pass', url', qs');
    assert g[0] == 'g' && p[0] == 'p';
  }

  /**
   * The credentials are concatenated without a separator, so moving characters between
   * user name and password gives the same key.
   */
  lemma CredentialsRunTogether(verb: string, url: string, qs: string)
    ensures CacheKey(verb, "ab", "", url, qs) == CacheKey(verb, "a", "b", url, qs)
  {
    assert "ab" + "" == "a" + "b";
  }

  // ---------------------------------------------------------------------------------------
  // Gating
  // ---------------------------------------------------------------------------------------

  /** `cacheGet` reads only with a cache, caching enabled, and a timeout other than -1 and `false`. */
  predicate ReadGate(hasCache: bool, nocache: bool, t: Timeout) {
    hasCache && !nocache && t != Secs(-1) && t != Off
  }

  /** `cacheSet` writes with a cache, caching enabled, and any timeout but -1. */
  predicate WriteGate(hasCache: bool, nocache: bool, t: Timeout) {
    hasCache && !nocache && t != Secs(-1)
  }

  /** Reading implies writing; the only timeout that writes without reading is `false` (regenerate). */
  lemma GatesApart(hasCache: bool, nocache: bool, t: Timeout)
    ensures ReadGate(hasCache, nocache, t) ==> WriteGate(hasCache, nocache, t)
    ensures WriteGate(hasCache, nocache, t) && !ReadGate(hasCache, nocache, t) <==> hasCache && !nocache && t == Off
  {
  }

  /** What cacheGet answers: the stashed download when the read is allowed and the cache has a fresh one. */
  function CachedAnswer(nocache: bool, t: Timeout, mem: map<string, Option<Packet<Download>>>, store: map<string, Packet<Download>>, key: string, now: int): (r: Option<Download>)
    ensures r.Some? ==> ReadGate(true, nocache, t)
  {
    if ReadGate(true, nocache, t) && StashAnswer(mem, store, key, now).Some? then Some(StashAnswer(mem, store, key, now).value.value) else None
  }

  /** The file cache after cacheGet: an allowed read purges an expired entry. */
  function AfterRead(nocache: bool, t: Timeout, mem: map<string, Option<Packet<Download>>>, store: map<string, Packet<Download>>, key: string, now: int): map<string, Packet<Download>> {
    if ReadGate(true, nocache, t) && !FreshSlot(mem, key, now) then Purged(store, key, now) else store
  }

  /** The stash memory after cacheGet: an allowed read stashes what the proxied cache answers. */
  function MemAfterRead(nocache: bool, t: Timeout, mem: map<string, Option<Packet<Download>>>, store: map<string, Packet<Download>>, key: string, now: int): map<string, Option<Packet<Download>>> {
    if ReadGate(true, nocache, t) then MemAfterGet(mem, store, key, now) else mem
  }

  /** download() writes the server's answer back: a cache miss, an is2__ status, and the write gate open. */
  ghost predicate WritesBack(nocache: bool, t: Timeout, mem: map<string, Option<Packet<Download>>>, store: map<string, Packet<Download>>, key: string, now: int, response: Download) {
    CachedAnswer(nocache, t, mem, store, key, now).None? && StatusHolds(TwoAny, response.status) && WriteGate(true, nocache, t)
  }

  /** What download() answers with a cache: the cached download, else the server's answer. */
  function Fetched(nocache: bool, t: Timeout, mem: map<string, Option<Packet<Download>>>, store: map<string, Packet<Download>>, key: string, now: int, response: Download): Download {
    var hit := CachedAnswer(nocache, t, mem, store, key, now);
    if hit.Some? then hit.value else response
  }

  /** The file cache after download(): the read's purge, then the write-back when there is one. */
  ghost function StoreAfterFetch(nocache: bool, t: Timeout, mem: map<string, Option<Packet<Download>>>, store: map<string, Packet<Download>>, key: string, now: int, response: Download): map<string, Packet<Download>> {
    var read := AfterRead(nocache, t, mem, store, key, now);
    if WritesBack(nocache, t, mem, store, key, now, response) then Stored(read, key, response, t, now).0 else read
  }

  /** The stash memory after download(): the read's stashing, then the written packet when there is one. */
  ghost function MemAfterFetch(nocache: bool, t: Timeout, mem: map<string, Option<Packet<Download>>>, store: map<string, Packet<Download>>, key: string, now: int, response: Download): map<string, Option<Packet<Download>>> {
    var m := MemAfterRead(nocache, t, mem, store, key, now);
    if WritesBack(nocache, t, mem, store, key, now, response)
    then m[key := Stored(AfterRead(nocache, t, mem, store, key, now), key, response, t, now).1]
    else m
  }

  /**
   * A download written back with a positive timeout is what the next download answers
   * from the cache, at any time before the timeout runs out.
   */
  lemma FetchThenCached(nocache: bool, n: int, mem: map<string, Option<Packet<Download>>>, store: map<string, Packet<Download>>, key: string, now: int, later: int, response: Download)
    requires n > 0 && now <= later && later < now + n
    requires WritesBack(nocache, Secs(n), mem, store, key, now, response)
    ensures var m, s := MemAfterFetch(nocache, Secs(n), mem, store, key, now, response), StoreAfterFetch(nocache, Secs(n), mem, store, key, now, response);
      Fetched(nocache, Secs(n), m, s, key, later, response) == response
      && CachedAnswer(nocache, Secs(n), m, s, key, later) == Some(response)
  {
    var m, s := MemAfterFetch(nocache, Secs(n), mem, store, key, now, response), StoreAfterFetch(nocache, Secs(n), mem, store, key, now, response);
    var p := Packet(now, now + n, response);
    assert m[key] == Some(p);
    assert FreshSlot(m, key, later);
  }

  /** After flush(), the key download() uses is found in neither the stash nor the file cache. */
  lemma FlushedIsMissed(nocache: bool, t: Timeout, mem: map<string, Option<Packet<Download>>>, store: map<string, Packet<Download>>, key: string, now: int)
    ensures CachedAnswer(nocache, t, mem - {key}, store - {key}, key, now).None?
  {
    DeletedMisses(mem, store, key, now);
  }

  // ---------------------------------------------------------------------------------------
  // clDownload: the status predicate
  // ---------------------------------------------------------------------------------------

  /** A status method name `is<digits>`, `is<digits>_` or `is<digits>__`. */
  datatype StatusQuery = StatusQuery(code: nat, anyTen: bool, anyOne: bool)

  /** The number of underscores ending `s`, up to three. */
  function Underscores(s: string): (u: nat)
    ensures u <= 3 && u <= |s|
    ensures forall i :: |s| - u <= i < |s| ==> s[i] == '_'
    ensures u < 3 && u < |s| ==> s[|s| - 1 - u] != '_'
  {
    if |s| > 0 && s[|s| - 1] == '_' then
      if |s| > 1 && s[|s| - 2] == '_' then
        if |s| > 2 && s[|s| - 3] == '_' then 3 else 2
      else 1
    else 0
  }

  /** `preg_match('/^is(\d+)(_)?(_)?$/', $name)`: the digits and which underscore groups matched. */
  function StatusName(name: string): (r: Option<StatusQuery>)
    ensures r.Some? ==> |name| >= 3 && name[..2] == "is"
    ensures r.Some? ==> r.value.anyOne ==> r.value.anyTen
  {
    if |name| < 3 || name[..2] != "is" then None
    else
      var rest := name[2..];
      var u := Underscores(rest);
      var digits := rest[..|rest| - u];
      if u == 3 || digits == [] || !AllDigits(digits) then None
      else Some(StatusQuery(DigitsValue(digits), u >= 1, u == 2))
  }

  /** Every name `is<digits>` followed by at most two underscores is a status query, with those digits and groups. */
  lemma StatusNameAccepts(ds: string, us: string)
    requires ds != [] && AllDigits(ds) && (us == "" || us == "_" || us == "__")
    ensures StatusName("is" + ds + us) == Some(StatusQuery(DigitsValue(ds), |us| >= 1, |us| == 2))
  {
    var name := "is" + ds + us;
    assert name[..2] == "is";
    var rest := name[2..];
    assert rest == ds + us;
    assert rest[|rest| - 1 - |us|] == ds[|ds| - 1];
    assert IsDigit(ds[|ds| - 1]);
    assert Underscores(rest) == |us|;
    assert rest[..|rest| - |us|] == ds;
  }

  /** Only such names are status queries. */
  lemma StatusNameParts(name: string)
    requires StatusName(name).Some?
    ensures exists ds, us ::
      && ds != [] && AllDigits(ds) && (us == "" || us == "_" || us == "__")
      && name == "is" + ds + us && StatusName(name) == Some(StatusQuery(DigitsValue(ds), |us| >= 1, |us| == 2))
  {
    var rest := name[2..];
    var u := Underscores(rest);
    var ds, us := rest[..|rest| - u], rest[|rest| - u..];
    assert rest == ds + us;
    assert name == name[..2] + rest;
    assert us == "" || us == "_" || us == "__" by {
      if u == 1 {
        assert us == [us[0]];
      } else if u == 2 {
        assert us == [us[0], us[1]];
      }
    }
    assert name == "is" + ds + us;
  }

  /** The numeric value of the code string the loops build: digits, then the two-digit tail. */
  function Code(q: StatusQuery, ten: int, one: int): int {
    q.code * 100 + ten + one
  }

  function TenMax(q: StatusQuery): nat {
    if q.anyTen then 0 else 90
  }

  function OneMax(q: StatusQuery): nat {
    if q.anyTen || q.anyOne then 0 else 9
  }

  /** The codes the loops enumerate: tens from 0 to TenMax in steps of ten, ones from 0 to OneMax. */
  ghost predicate Enumerated(q: StatusQuery, status: int) {
    exists ten, one :: 0 <= ten <= TenMax(q) && ten % 10 == 0 && 0 <= one <= OneMax(q) && status == Code(q, ten, one)
  }

  /** What `is<name>()` answers for a status: false without one, else the enumerated codes or the exact code. */
  ghost predicate StatusHolds(q: StatusQuery, status: int) {
    status != 0 && (if q.anyTen || q.anyOne then Enumerated(q, status) else status == q.code)
  }

  /** The status query behind `is2__()`. */
  const TwoAny := StatusQuery(2, true, true)

  /** `is2__()` enumerates the one code 200, not the range 200 to 299. */
  lemma TwoAnyIsOnly200(status: int)
    ensures StatusName("is2__") == Some(TwoAny)
    ensures StatusHolds(TwoAny, status) <==> status == 200
  {
    var rest := "is2__"[2..];
    assert rest == "2__";
    assert Underscores(rest) == 2;
    assert rest[..1] == "2";
    assert DigitsValue("2") == DigitsValue("2"[..0]) * 10 + 2;
    if status == 200 {
      assert status == Code(TwoAny, 0, 0);
    }
  }

  /** The loops of `__call('is...')`, stopping at the first code equal to the status. */
  method StatusIs(q: StatusQuery, status: int) returns (b: bool)
    ensures b <==> StatusHolds(q, status)
  {
    if status == 0 {
      return false;
    }
    if q.anyTen || q.anyOne {
      var ten := 0;
      while ten <= TenMax(q)
        invariant 0 <= ten <= TenMax(q) + 10 && ten % 10 == 0
        invariant forall t, o :: 0 <= t < ten && t % 10 == 0 && 0 <= o <= OneMax(q) ==> status != Code(q, t, o)
      {
        var one := 0;
        while one <= OneMax(q)
          invariant 0 <= one <= OneMax(q) + 1
          invariant forall o :: 0 <= o < one ==> status != Code(q, ten, o)
        {
          if Code(q, ten, one) == status {
            return true;
          }
          one := one + 1;
        }
        ten := ten + 10;
      }
      return false;
    }
    return status == q.code;
  }

  /** `__call($name)`: a status method's answer, or the exception for any other name. */
  method Call(name: string, status: int) returns (r: Result<bool, string>)
    ensures StatusName(name).None? ==> r == Failure("Call to unknown function: " + name)
    ensures StatusName(name).Some? ==> r.Success? && (r.value <==> StatusHolds(StatusName(name).value, status))
  {
    var q := StatusName(name);
    if q.None? {
      return Failure("Call to unknown function: " + name);
    }
    var b := StatusIs(q.value, status);
    r := Success(b);
  }

  // ---------------------------------------------------------------------------------------
  // clDownload: content types
  // ---------------------------------------------------------------------------------------

  /**
   * A case-insensitive match of a lower-case pattern: `stripos` and the `i` flag compare
   * the lower-cased subject with the pattern, which is already in lower case.
   */
  predicate HasCI(h: string, pattern: string) {
    StrPos(LowerStr(h), pattern).Some?
  }

  /** The content-type pattern of isXml: `text/xml`, `application/rss+xml` or `xml`, ignoring case. */
  predicate XmlType(ct: string) {
    HasCI(ct, "text/xml") || HasCI(ct, "application/rss+xml") || HasCI(ct, "xml")
  }

  /** A string ending in `xml` contains it: the first two alternatives add nothing to the third. */
  lemma XmlTypeIsXml(ct: string)
    ensures XmlType(ct) <==> HasCI(ct, "xml")
  {
    var h := LowerStr(ct);
    StrPosFound(h, "xml");
    StrPosFound(h, "text/xml");
    StrPosFound(h, "application/rss+xml");
    if HasCI(ct, "text/xml") {
      var j :| OccursAt(h, "text/xml", j);
      assert h[j + 5..j + 8] == h[j..j + 8][5..];
      assert OccursAt(h, "xml", j + 5);
    }
    if HasCI(ct, "application/rss+xml") {
      var j :| OccursAt(h, "application/rss+xml", j);
      assert h[j + 16..j + 19] == h[j..j + 19][16..];
      assert OccursAt(h, "xml", j + 16);
    }
  }

  /** The haystack of isXml's body check is already in lower case. */
  lemma LowerDeclaration()
    ensures LowerStr("<?xml") == "<?xml"
  {
    assert LowerStr("xml") == "xml" by {
      assert LowerStr("ml") == "ml" by { assert LowerStr("l") == "l"; }
    }
  }

  /**
   * `isXml()`: an XML content type, or a body whose trimmed text is a non-empty prefix of
   * `<?xml` (stripos is called with haystack and needle swapped, so a whole declaration does
   * not pass, while a body of just `<` does).
   */
  function IsXml(d: Download): (r: bool)
    ensures r <==> HasCI(d.contentType, "xml") || (Trim(d.content) != [] && IsPrefix(LowerStr(Trim(d.content)), "<?xml"))
  {
    XmlTypeIsXml(d.contentType);
    LowerDeclaration();
    StrPosZero("<?xml", LowerStr(Trim(d.content)));
    XmlType(d.contentType) || StrPos(LowerStr("<?xml"), LowerStr(Trim(d.content))) == Some(0)
  }

  /** A body holding a whole XML declaration is not recognised by the body check. */
  lemma DeclarationNotSniffed(status: int, ct: string, content: string)
    requires !HasCI(ct, "xml") && |Trim(content)| > 5
    ensures !IsXml(Download(status, ct, content))
  {
  }

  /** The content-type pattern of isJson, ignoring case; `.*json.*` matches any type containing `json`. */
  predicate JsonType(ct: string) {
    || HasCI(ct, "text/javascript")
    || HasCI(ct, "application/x-javascript")
    || HasCI(ct, "application/json")
    || HasCI(ct, "text/x-javascript")
    || HasCI(ct, "text/x-json")
    || HasCI(ct, "json")
  }

  /** `substr($t, -1)`: the last character, or nothing. */
  function LastChar(t: string): string {
    if t == [] then [] else [t[|t| - 1]]
  }

  /** The body checks of isJson as written: `substr($t, 0)` is the whole trimmed body. */
  predicate BodyLooksJson(content: string) {
    var t := Trim(content);
    (Substr(t, 0, |t|) == "{" && LastChar(t) == "}") || (Substr(t, 0, |t|) == "[" && LastChar(t) == "]")
  }

  /** `isJson()`: the body checks can never succeed, so only the content type decides. */
  function IsJson(d: Download): (r: bool)
    ensures r <==> JsonType(d.contentType)
  {
    var t := Trim(d.content);
    assert Substr(t, 0, |t|) == t;
    JsonType(d.contentType) || BodyLooksJson(d.content)
  }

  // ---------------------------------------------------------------------------------------
  // clApi
  // ---------------------------------------------------------------------------------------

  /** `array_merge($base, $more)` on string keys: each key of `more` assigned in turn. */
  function Merged(base: seq<Entry<string>>, more: seq<Entry<string>>): seq<Entry<string>> {
    if more == [] then base else Put(Merged(base, more[..|more| - 1]), more[|more| - 1].key, more[|more| - 1].val)
  }

  /** After a merge, a key has its value from `more` when it is there, else the one it had. */
  lemma {:induction false} MergedGet(base: seq<Entry<string>>, more: seq<Entry<string>>, k: string)
    requires UniqueKeys(base) && UniqueKeys(more)
    ensures UniqueKeys(Merged(base, more))
    ensures Get(Merged(base, more), k) == if Get(more, k).Some? then Get(more, k) else Get(base, k)
  {
    if more != [] {
      var init := more[..|more| - 1];
      var last := more[|more| - 1];
      MergedGet(base, init, k);
      PutSpec(Merged(base, init), last.key, last.val);
      GetSome(more, k);
      GetSome(init, k);
      if last.key != k {
        if Get(more, k).Some? {
          var a :| 0 <= a < |more| && more[a] == Entry(k, Get(more, k).value);
          assert a < |init| && init[a].key == k;
          var b :| 0 <= b < |init| && init[b] == Entry(k, Get(init, k).value);
          FindUnique(more, a);
          FindUnique(more, b);
        }
      } else {
        FindUnique(more, |more| - 1);
      }
    }
  }

  /** The assignment loop of array_merge. */
  method Merge(base: seq<Entry<string>>, more: seq<Entry<string>>) returns (r: seq<Entry<string>>)
    ensures r == Merged(base, more)
  {
    r := base;
    for c := 0 to |more|
      invariant r == Merged(base, more[..c])
    {
      assert more[..c + 1][..c] == more[..c];
      r := Put(r, more[c].key, more[c].val);
    }
    assert more[..|more|] == more;
  }

  /** What parse() returns: no node, the node getNodeFor builds for a type, or the exception for an unknown type. */
  datatype Parsed = NoNode | NodeFor(kind: string) | Undetermined

  /** The dispatch of parse() on a download. */
  ghost function Dispatch(d: Download, nodeType: string): Parsed {
    if !StatusHolds(TwoAny, d.status) then NoNode
    else if Truthy(nodeType) then NodeFor(nodeType)
    else if IsXml(d) then NodeFor("xml")
    else if IsJson(d) then NodeFor("json")
    else Undetermined
  }

  /**
   * parse() builds a node only for status 200; an explicit node type is used as given,
   * whatever the download looks like; otherwise XML is tried before JSON, and JSON is
   * chosen only by content type.
   */
  lemma DispatchOrder(d: Download, nodeType: string)
    ensures Dispatch(d, nodeType) != NoNode <==> d.status == 200
    ensures d.status == 200 && Truthy(nodeType) ==> Dispatch(d, nodeType) == NodeFor(nodeType)
    ensures d.status == 200 && !Truthy(nodeType) && IsXml(d) ==> Dispatch(d, nodeType) == NodeFor("xml")
    ensures !Truthy(nodeType) && Dispatch(d, nodeType) == NodeFor("json") ==> JsonType(d.contentType) && !IsXml(d)
  {
    TwoAnyIsOnly200(d.status);
    if d.status == 200 && !Truthy(nodeType) && !IsXml(d) {
      assert Dispatch(d, nodeType) == if IsJson(d) then NodeFor("json") else Undetermined;
    }
  }

  /** A clApi instance: request settings, its cache, and the download it keeps. */
  class Api {
    var verb: string
    const url: string
    const user: string
    const pass: string
    var params: seq<Entry<string>>
    var headers: seq<Entry<string>>
    const cache: Stash?<Download>
    /** COREYLIB_NOCACHE. */
    const nocache: bool
    var download: Option<Download>
    var cacheKey: string

    /**
     * A client for an already parsed URL: the default method lower-cased, or GET when that
     * is empty; no parameters beyond those of the URL, no headers, no download yet.
     */
    constructor (url: string, user: string, pass: string, params: seq<Entry<string>>, defaultMethod: string, cache: Stash?<Download>, nocache: bool)
      ensures this.url == url && this.user == user && this.pass == pass && this.params == params
      ensures verb == if Truthy(LowerStr(defaultMethod)) then LowerStr(defaultMethod) else MethodGet
      ensures headers == [] && download == None && this.cache == cache && this.nocache == nocache
    {
      this.url, this.user, this.pass, this.params := url, user, pass, params;
      var m := LowerStr(defaultMethod);
      verb := if Truthy(m) then m else MethodGet;
      headers := [];
      this.cache, this.nocache := cache, nocache;
      download := None;
      cacheKey := [];
    }

    /** The key download() and flush() derive for a method override. */
    function Key(override: Option<string>): string
      reads this
    {
      CacheKey(if override.Some? then override.value else verb, user, pass, url, BuildQuery(params))
    }

    /** `header($name)`: the header's value, if set. */
    function Header(name: string): (r: Option<string>)
      reads this
      ensures r.Some? <==> exists a :: 0 <= a < |headers| && headers[a].key == name
    {
      GetSome(headers, name);
      Get(headers, name)
    }

    /** `header($name, $value)`. */
    method SetHeader(name: string, value: string)
      modifies this
      ensures headers == Put(old(headers), name, value)
      ensures params == old(params) && verb == old(verb)
      ensures download == old(download) && cacheKey == old(cacheKey)
    {
      headers := Put(headers, name, value);
    }

    /** `header($array)`. */
    method MergeHeaders(more: seq<Entry<string>>)
      modifies this
      ensures headers == Merged(old(headers), more)
      ensures params == old(params) && verb == old(verb)
      ensures download == old(download) && cacheKey == old(cacheKey)
    {
      headers := Merge(headers, more);
    }

    /** `param($name)`: the parameter's value, if set. */
    function Param(name: string): (r: Option<string>)
      reads this
      ensures r.Some? <==> exists a :: 0 <= a < |params| && params[a].key == name
    {
      GetSome(params, name);
      Get(params, name)
    }

    /** `param($name, $value)`. */
    method SetParam(name: string, value: string)
      modifies this
      ensures params == Put(old(params), name, value)
      ensures headers == old(headers) && verb == old(verb)
      ensures download == old(download) && cacheKey == old(cacheKey)
    {
      params := Put(params, name, value);
    }

    /** `param($array)`. */
    method MergeParams(more: seq<Entry<string>>)
      modifies this
      ensures params == Merged(old(params), more)
      ensures headers == old(headers) && verb == old(verb)
      ensures download == old(download) && cacheKey == old(cacheKey)
    {
      params := Merge(params, more);
    }

    /** `cacheGet($key, $cacheFor)`: the cached download when reading is allowed and there is a fresh one. */
    method CacheGet(key: string, t: Timeout, now: int) returns (r: Option<Download>)
      requires cache != null
      modifies cache, cache.proxied
      ensures r == CachedAnswer(nocache, t, old(cache.mem), old(cache.proxied.store), key, now)
      ensures cache.proxied.store == AfterRead(nocache, t, old(cache.mem), old(cache.proxied.store), key, now)
      ensures cache.mem == MemAfterRead(nocache, t, old(cache.mem), old(cache.proxied.store), key, now)
      ensures cache.appended == old(cache.appended)
      ensures old(cache.Valid()) ==> cache.Valid()
    {
      if nocache || t == Secs(-1) || t == Off {
        return None;
      }
      var p := cache.Get(key, now);
      if p.None? {
        return None;
      }
      r := Some(p.value.value);
    }

    /** `cacheSet($key, $download, $cacheFor)`: written unless the timeout is -1 or caching is off. */
    method CacheSet(key: string, d: Download, t: Timeout, now: int) returns (r: Option<Packet<Download>>)
      requires cache != null
      modifies cache, cache.proxied
      ensures WriteGate(true, nocache, t) ==> (cache.proxied.store, r) == Stored(old(cache.proxied.store), key, d, t, now)
      ensures !WriteGate(true, nocache, t) ==> r == None && cache.proxied.store == old(cache.proxied.store)
      ensures WriteGate(true, nocache, t) ==> cache.mem == old(cache.mem)[key := r]
      ensures !WriteGate(true, nocache, t) ==> cache.mem == old(cache.mem)
      ensures cache.appended == old(cache.appended)
      ensures old(cache.Valid()) ==> cache.Valid()
    {
      if nocache || t == Secs(-1) {
        return None;
      }
      r := cache.Set(key, d, t, now);
    }

    /** `cacheDel($key)`: deletes the key unless caching is off. */
    method CacheDel(key: string) returns (r: bool)
      modifies if cache == null then {} else {cache, cache.proxied}
      ensures cache != null && !nocache ==> (r <==> key in old(cache.proxied.store)) && cache.proxied.store == old(cache.proxied.store) - {key}
      ensures cache == null || nocache ==> !r && (cache != null ==> cache.proxied.store == old(cache.proxied.store))
      ensures cache != null && !nocache ==> cache.mem == old(cache.mem) - {key}
      ensures cache != null && nocache ==> cache.mem == old(cache.mem)
      ensures cache != null ==> cache.appended == old(cache.appended)
      ensures cache != null ==> old(cache.Valid()) ==> cache.Valid()
    {
      if cache == null || nocache {
        return false;
      }
      r := cache.Del(key);
    }

    /** `flush($override)`: deletes exactly the entry download() reads and writes for that method. */
    method Flush(override: Option<string>)
      modifies if cache == null then {} else {cache, cache.proxied}
      ensures cache != null && !nocache ==> cache.proxied.store == old(cache.proxied.store) - {Key(override)}
      ensures cache != null && nocache ==> cache.proxied.store == old(cache.proxied.store)
      ensures cache != null && !nocache ==> cache.mem == old(cache.mem) - {Key(override)}
      ensures cache != null && nocache ==> cache.mem == old(cache.mem)
      ensures cache != null ==> cache.appended == old(cache.appended)
      ensures cache != null ==> old(cache.Valid()) ==> cache.Valid()
    {
      var m := if override.Some? then override.value else verb;
      var qs := BuildQuery(params);
      var u := RequestUrl(m, url, qs);
      var key := m + user + pass + u + qs;
      var _ := CacheDel(key);
    }

    /**
     * `download(false, $cacheFor, $override)`: the cached download when reading is allowed
     * and finds one; otherwise what the server answers (`response`), written to the cache
     * only when is2__() holds and writing is allowed.
     */
    method Fetch(t: Timeout, override: Option<string>, response: Download, now: int) returns (d: Download)
      modifies this, if cache == null then {} else {cache, cache.proxied}
      ensures cacheKey == Key(override) && download == old(download)
      ensures params == old(params) && verb == old(verb) && headers == old(headers)
      ensures cache == null ==> d == response
      ensures cache != null ==>
        && d == Fetched(nocache, t, old(cache.mem), old(cache.proxied.store), cacheKey, now, response)
        && cache.proxied.store == StoreAfterFetch(nocache, t, old(cache.mem), old(cache.proxied.store), cacheKey, now, response)
        && cache.mem == MemAfterFetch(nocache, t, old(cache.mem), old(cache.proxied.store), cacheKey, now, response)
        && cache.appended == old(cache.appended)
      ensures cache != null ==> old(cache.Valid()) ==> cache.Valid()
    {
      var m := if override.Some? then override.value else verb;
      var qs := BuildQuery(params);
      var u := RequestUrl(m, url, qs);
      cacheKey := m + user + pass + u + qs;
      if cache != null {
        var cached := CacheGet(cacheKey, t, now);
        if cached.Some? {
          return cached.value;
        }
      }
      d := response;
      var ok := StatusIs(TwoAny, d.status);
      if ok && cache != null {
        var _ := CacheSet(cacheKey, d, t, now);
      }
    }

    /**
     * `parse($cacheFor, $override, $nodeType)`: downloads on the first call only, then
     * dispatches on the kept download.
     */
    method Parse(t: Timeout, override: Option<string>, nodeType: string, response: Download, now: int) returns (r: Parsed)
      modifies this, if cache == null then {} else {cache, cache.proxied}
      ensures params == old(params) && verb == old(verb) && headers == old(headers)
      ensures old(download).Some? ==> download == old(download) && cacheKey == old(cacheKey)
      ensures old(download).Some? && cache != null ==> unchanged(cache, cache.proxied)
      ensures old(download).None? ==> cacheKey == old(Key(override))
      ensures old(download).None? && cache == null ==> download == Some(response)
      ensures old(download).None? && cache != null ==>
        && download == Some(Fetched(nocache, t, old(cache.mem), old(cache.proxied.store), cacheKey, now, response))
        && cache.proxied.store == StoreAfterFetch(nocache, t, old(cache.mem), old(cache.proxied.store), cacheKey, now, response)
        && cache.mem == MemAfterFetch(nocache, t, old(cache.mem), old(cache.proxied.store), cacheKey, now, response)
        && cache.appended == old(cache.appended)
      ensures download.Some? && r == Dispatch(download.value, nodeType)
      ensures cache != null ==> old(cache.Valid()) ==> cache.Valid()
    {
      if download.None? {
        var d := Fetch(t, override, response, now);
        download := Some(d);
      }
      var d := download.value;
      var ok := StatusIs(TwoAny, d.status);
      if !ok {
        return NoNode;
      }
      if Truthy(nodeType) {
        r := NodeFor(nodeType);
      } else if IsXml(d) {
        r := NodeFor("xml");
      } else if IsJson(d) {
        r := NodeFor("json");
      } else {
        r := Undetermined;
      }
    }
  }
}
