/** main/WebDownloader.java: the crawl itself. The network, the file system
    and jsoup are the oracle functions of a `Web`; what is modelled is the
    bookkeeping over linksFollowed, downloadedFiles and the work queue, and
    the URL and path arithmetic. */
module Crawler {
  import opened Strings
  import opened Html
  import opened WorkQueue
  import opened Extraction
  import opened RuleEngine
  import opened Records

  /** What the crawler asks of the outside world. */
  datatype Web = Web(
    /** jsoup's select and absUrl. */
    dom: Dom,
    /** ByteBuffer.intValue, for `child(i)` in extraction expressions. */
    intValue: string -> int,
    /** The page Jsoup.connect(url).get() (or, for local files,
        Jsoup.parse(file)) returns; None for each of the exceptions
        downloadWebpage catches. */
    fetch: string -> Option<Element>,
    /** ByteBuffer.readURL: the number of bytes read, or None when it raises an IOException. */
    read: string -> Option<int>,
    /** The length of a page's doc.toString(). */
    pageLength: Element -> int,
    /** ByteBuffer.write(file) succeeds for this path. */
    writes: string -> bool,
    /** Double.toString(length / 1000.0). */
    formatSize: int -> string)

  const INDEX_HTML := "index.html"
  const QUEUE_SIZE := 1024

  predicate NoDuplicates(s: seq<string>) {
    forall i, j :: 0 <= i < j < |s| ==> s[i] != s[j]
  }

  /** cleanAbsoluteUrl: the URL cut before its first '?' or '#'. */
  function CleanAbsoluteUrl(url: string): (r: string)
    ensures StartsWith(url, r)
    ensures '?' !in r && '#' !in r
    ensures ('?' in url || '#' in url) ==> |r| < |url| && (url[|r|] == '?' || url[|r|] == '#')
    ensures '?' !in url && '#' !in url ==> r == url
  {
    var queryIndex := IndexOfChar(url, '?');
    var phpIndex := IndexOfChar(url, '#');
    if queryIndex != -1 && phpIndex != -1 && queryIndex < phpIndex then
      assert url[..queryIndex] == url[..phpIndex][..queryIndex];
      url[..queryIndex]
    else if queryIndex != -1 && phpIndex != -1 then
      assert url[..phpIndex] == url[..queryIndex][..phpIndex];
      url[..phpIndex]
    else if queryIndex != -1 then url[..queryIndex]
    else if phpIndex != -1 then url[..phpIndex]
    else url
  }

  /** Cleaning is idempotent. */
  lemma CleanIdempotent(url: string)
    ensures CleanAbsoluteUrl(CleanAbsoluteUrl(url)) == CleanAbsoluteUrl(url)
  {
  }

  /** The working directory as run() normalises it: one trailing '/' removed. */
  function WithoutTrailingSlash(dir: string): (r: string)
    ensures |dir| > 0 && dir[|dir| - 1] == '/' ==> dir == r + "/"
    ensures !(|dir| > 0 && dir[|dir| - 1] == '/') ==> r == dir
  {
    if |dir| > 0 && dir[|dir| - 1] == '/' then dir[..|dir| - 1] else dir
  }

  /** The home URL for a full-site crawl: everything up to and including the
      last '/', or nothing when there is none. */
  function HomeDirectory(home: string): (r: string)
    ensures StartsWith(home, r)
    ensures r == "" || r[|r| - 1] == '/'
    ensures '/' !in home[|r|..]
    ensures '/' in home ==> r != ""
  {
    var i := LastIndexOfChar(home, '/');
    home[..i + 1]
  }

  /** The queue contents after enqueueing `items` one by one onto contents
      `c` of a queue with `cap` slots: an item that finds the queue full is
      dropped. */
  function Offer(c: seq<string>, cap: nat, items: seq<string>): seq<string>
    decreases |items|
  {
    if items == [] then c
    else
      var before := Offer(c, cap, items[..|items| - 1]);
      if |before| < cap then before + [items[|items| - 1]] else before
  }

  /** Offering one more item. */
  lemma OfferSnoc(c: seq<string>, cap: nat, items: seq<string>, x: string)
    ensures Offer(c, cap, items + [x])
         == if |Offer(c, cap, items)| < cap then Offer(c, cap, items) + [x] else Offer(c, cap, items)
  {
    assert (items + [x])[..|items|] == items;
  }

  function Min(a: int, b: int): int {
    if a < b then a else b
  }

  /** Offering keeps the items in order and drops exactly those offered
      after the queue filled up. */
  lemma {:induction false} OfferTruncates(c: seq<string>, cap: nat, items: seq<string>)
    requires |c| <= cap
    ensures Offer(c, cap, items) == (c + items)[..Min(cap, |c| + |items|)]
    decreases |items|
  {
    if items != [] {
      var init := items[..|items| - 1];
      OfferTruncates(c, cap, init);
      assert (c + init) == (c + items)[..|c| + |init|];
      if |c| + |init| < cap {
        assert (c + items)[..|c| + |items|] == (c + init) + [items[|items| - 1]];
      }
    }
  }

  /** Every item offered beyond the current contents is one of `items`,
      and the current contents stay in front. */
  lemma OfferOnlyAdds(c: seq<string>, cap: nat, items: seq<string>)
    requires |c| <= cap
    ensures c <= Offer(c, cap, items)
    ensures forall u :: u in Offer(c, cap, items)[|c|..] ==> u in items
  {
    OfferTruncates(c, cap, items);
    var q := Offer(c, cap, items);
    assert q[..|c|] == c;
    forall u | u in q[|c|..]
      ensures u in items
    {
      var k :| 0 <= k < |q[|c|..]| && q[|c|..][k] == u;
      assert u == q[|c| + k] == (c + items)[|c| + k];
      assert u == items[k];
    }
  }

  /** What a step of the crawl reads and does not change: the rules, homeURL
      and the normalised working directory. */
  datatype Site = Site(config: Config, homeURL: string, workingDir: string)

  /** WebDownloader.withoutHomeURL (named apart from Rules.withoutHomeURL): the path of `url`. For a URL containing
      "http" it is taken relative to the website URL (which no rule sets, so
      with the rules as loaded that branch raises NullPointerException); for
      a file path it is taken relative to homeURL, keeping its last character. */
  function PathWithoutHome(s: Site, url: string): (r: Result<string>)
    ensures r.Fail? <==>
      || (Contains(url, "http") && s.config.websiteURL.None?)
      || (!Contains(url, "http") && s.homeURL == "" && url != "")
    ensures r.Fail? ==>
      r.exception == if Contains(url, "http") then NULL_DEREF else STRING_INDEX_OUT_OF_BOUNDS
  {
    if Contains(url, "http") then
      match s.config.websiteURL
      case None => Fail(NULL_DEREF)
      case Some(w) =>
        var index := IndexOf(url, w);
        if index == -1 then Ok(url)
        else if |url| == |w| then Ok(INDEX_HTML)
        else Ok(url[index + |w|..])
    else
      var index := IndexOf(url, s.homeURL);
      if index == -1 then Ok(url)
      else if |url| == |s.homeURL| then Ok(INDEX_HTML)
      else if index + |s.homeURL| - 1 < 0 then Fail(STRING_INDEX_OUT_OF_BOUNDS)
      else Ok(url[index + |s.homeURL| - 1..])
  }

  /** A URL containing "http": without a website URL the call raises;
      otherwise the path is what follows the website URL, "index.html" for
      the website URL itself, and the whole URL when it does not occur. */
  lemma WebsitePath(s: Site, url: string)
    requires Contains(url, "http")
    ensures s.config.websiteURL == None ==> PathWithoutHome(s, url) == Fail(NULL_DEREF)
    ensures s.config.websiteURL.Some? ==>
      var w, r := s.config.websiteURL.value, PathWithoutHome(s, url);
      && (!Contains(url, w) ==> r == Ok(url))
      && (url == w ==> r == Ok(INDEX_HTML))
      && (Contains(url, w) && url != w ==> r.Ok? && url == url[..IndexOf(url, w)] + w + r.value)
  {
    if s.config.websiteURL.Some? {
      var w := s.config.websiteURL.value;
      var index := IndexOf(url, w);
      if index != -1 {
        assert url[index..index + |w|] == w;
        assert url == url[..index] + url[index..index + |w|] + url[index + |w|..];
      }
    }
  }

  /** A file path: the path is what follows homeURL, starting one character
      early (at homeURL's last character); "index.html" for homeURL itself;
      the whole path when homeURL does not occur; and an empty homeURL makes
      substring raise. */
  lemma HomePath(s: Site, url: string)
    requires !Contains(url, "http")
    ensures !Contains(url, s.homeURL) ==> PathWithoutHome(s, url) == Ok(url)
    ensures url == s.homeURL ==> PathWithoutHome(s, url) == Ok(INDEX_HTML)
    ensures s.homeURL == "" && url != "" ==> PathWithoutHome(s, url) == Fail(STRING_INDEX_OUT_OF_BOUNDS)
    ensures Contains(url, s.homeURL) && url != s.homeURL && s.homeURL != "" ==>
      var r := PathWithoutHome(s, url);
      && r.Ok? && |r.value| > 0 && r.value[0] == s.homeURL[|s.homeURL| - 1]
      && url == url[..IndexOf(url, s.homeURL)] + s.homeURL + r.value[1..]
  {
    var home := s.homeURL;
    var index := IndexOf(url, home);
    if index != -1 && url != home && home != "" {
      HomePathInside(s, url);
    }
  }

  lemma HomePathInside(s: Site, url: string)
    requires !Contains(url, "http")
    requires Contains(url, s.homeURL) && url != s.homeURL && s.homeURL != ""
    ensures
      var r := PathWithoutHome(s, url);
      && r.Ok? && |r.value| > 0 && r.value[0] == s.homeURL[|s.homeURL| - 1]
      && url == url[..IndexOf(url, s.homeURL)] + s.homeURL + r.value[1..]
  {
    var home := s.homeURL;
    var index := IndexOf(url, home);
    SliceAround(url, home, index);
    assert |url| != |home|;
    assert PathWithoutHome(s, url) == Ok(url[index + |home| - 1..]);
  }

  /** An occurrence of a non-empty `home` at `index` splits `url` into what
      precedes it, `home`, and what follows; the text from the occurrence's
      last character on starts with that character. */
  lemma SliceAround(url: string, home: string, index: int)
    requires home != [] && 0 <= index && IsAt(url, home, index)
    ensures index + |home| <= |url| && url[index..index + |home|] == home
    ensures url[index + |home| - 1] == home[|home| - 1]
    ensures url == url[..index] + home + url[index + |home| - 1..][1..]
  {
    assert url[index + |home| - 1] == url[index..index + |home|][|home| - 1];
    assert url[index + |home| - 1..][1..] == url[index + |home|..];
    assert url == url[..index] + url[index..index + |home|] + url[index + |home|..];
  }

  /** getFileLocation: the local file that stands for `url`, which lies
      under the configured working directory and sub-directory. A URL
      containing "http" raises NullPointerException while no website URL is
      set, as does a file path under an empty homeURL (substring raising);
      homeURL itself stands for its "index.html", and a path outside homeURL
      is kept whole. */
  function GetFileLocation(s: Site, url: string): (r: Result<string>)
    ensures Contains(url, "http") && s.config.websiteURL.None? ==> r == Fail(NULL_DEREF)
    ensures !Contains(url, "http") && s.homeURL == "" && url != "" ==> r == Fail(STRING_INDEX_OUT_OF_BOUNDS)
    ensures r.Ok? ==> StartsWith(r.value, s.config.workingDir + s.config.subdir)
    ensures !Contains(url, "http") && url == s.homeURL ==>
      r == Ok(s.config.workingDir + s.config.subdir + INDEX_HTML)
    ensures !Contains(url, "http") && !Contains(url, s.homeURL) ==>
      r == Ok(s.config.workingDir + s.config.subdir + url)
  {
    match PathWithoutHome(s, url)
    case Fail(x) => Fail(x)
    case Ok(path) => Ok(s.config.workingDir + s.config.subdir + path)
  }

  /** The file saveByteBuffer writes for `url`: the working directory
      followed by the URL's path, with "index.html" added when that path is
      one character long and "/index.html" when it is empty. */
  function SavePath(s: Site, url: string): (r: Result<string>)
    ensures r.Ok? <==> PathWithoutHome(s, url).Ok?
    ensures r.Ok? ==>
      var path := PathWithoutHome(s, url).value;
      && StartsWith(r.value, s.workingDir + path)
      && |r.value| >= |s.workingDir| + 2
      && (|path| == 0 ==> r.value == s.workingDir + "/" + INDEX_HTML)
      && (|path| == 1 ==> r.value == s.workingDir + path + INDEX_HTML)
      && (|path| > 1 ==> r.value == s.workingDir + path)
  {
    match PathWithoutHome(s, url)
    case Fail(x) => Fail(x)
    case Ok(path) =>
      var fileToWrite := s.workingDir + path;
      var lenDifference := |fileToWrite| - |s.workingDir|;
      if lenDifference == 1 then Ok(fileToWrite + INDEX_HTML)
      else if lenDifference == 0 then
        assert fileToWrite == s.workingDir;
        Ok(fileToWrite + "/" + INDEX_HTML)
      else Ok(fileToWrite)
  }

  /** saveByteBuffer for a buffer of `length` bytes: for a remote crawl the
      buffer is written to SavePath(url) and its length returned, or -1 when
      the write fails; for local files nothing is written. */
  function SaveByteBuffer(web: Web, s: Site, length: int, url: string): (r: Result<int>)
    ensures s.config.localFile ==> r == Ok(length)
    ensures !s.config.localFile ==>
      (r.Fail? <==> SavePath(s, url).Fail?)
      && (r.Ok? ==> r.value == if web.writes(SavePath(s, url).value) then length else -1)
  {
    if !s.config.localFile then
      match SavePath(s, url)
      case Fail(x) => Fail(x)
      case Ok(fileToWrite) => if web.writes(fileToWrite) then Ok(length) else Ok(-1)
    else Ok(length)
  }

  /** saveFile: for a remote crawl read homeURL + the URL's path and save
      what was read (a failed read returns 0); for local files an empty
      buffer is "saved", so the result is 0. */
  function SaveFile(web: Web, s: Site, url: string): (r: Result<int>)
    ensures s.config.localFile ==> r == Ok(0)
    ensures !s.config.localFile && PathWithoutHome(s, url).Fail? ==>
      r == Fail(PathWithoutHome(s, url).exception)
    ensures (!s.config.localFile && PathWithoutHome(s, url).Ok?
             && web.read(s.homeURL + PathWithoutHome(s, url).value).None?) ==> r == Ok(0)
    ensures (!s.config.localFile && PathWithoutHome(s, url).Ok?
             && web.read(s.homeURL + PathWithoutHome(s, url).value).Some?) ==>
      var n := web.read(s.homeURL + PathWithoutHome(s, url).value).value;
      && (r.Fail? <==> SavePath(s, url).Fail?)
      && (r.Ok? ==> r.value == if web.writes(SavePath(s, url).value) then n else -1)
  {
    if !s.config.localFile then
      match PathWithoutHome(s, url)
      case Fail(x) => Fail(x)
      case Ok(path) =>
        match web.read(s.homeURL + path)
        case None => Ok(0)
        case Some(n) => SaveByteBuffer(web, s, n, url)
    else SaveByteBuffer(web, s, 0, url)
  }

  /** The rule test downloadFile applies to a file's URL. */
  predicate FileAllowed(c: Config, src: string) {
    ShouldFollow(c, src) && ShouldDownload(c, AfterLast(src, '.'))
  }

  /** The absolute URLs of `elements` under attribute `attr`, in order. */
  function Sources(web: Web, elements: seq<Element>, attr: string): (r: seq<string>)
    ensures |r| == |elements|
    ensures forall i :: 0 <= i < |elements| ==> r[i] == web.dom.absUrl(elements[i], attr)
  {
    seq(|elements|, i requires 0 <= i < |elements| => web.dom.absUrl(elements[i], attr))
  }

  /** The URL followLinks takes from a link element: its absolute URL, cleaned. */
  function LinkURL(web: Web, e: Element, linkType: string): string {
    CleanAbsoluteUrl(web.dom.absUrl(e, linkType))
  }

  /** The test followLinks applies before enqueueing a link's URL. */
  predicate WantsLink(c: Config, followed: set<string>, src: string) {
    ShouldFollowType(c, src, AfterLast(src, '.')) && src !in followed && |src| > 0
  }

  /** What followLinks does over `links`, after enqueueing `done`: the URLs
      it has enqueued, in page order, and the exception that ends the loop,
      if any. After the enqueue test every link goes through withoutHomeURL
      (for putURLByName), and an exception there ends the loop. */
  function LinkPlan(web: Web, s: Site, followed: set<string>, links: seq<Element>, linkType: string,
                    done: seq<string>): (seq<string>, Option<string>)
    decreases |links|
  {
    if links == [] then (done, None)
    else
      var src := LinkURL(web, links[0], linkType);
      var next := if WantsLink(s.config, followed, src) then done + [src] else done;
      match PathWithoutHome(s, src)
      case Fail(x) => (next, Some(x))
      case Ok(_) => LinkPlan(web, s, followed, links[1..], linkType, next)
  }

  /** One step of LinkPlan, at position `i` of the links. */
  lemma LinkPlanStep(web: Web, s: Site, followed: set<string>, links: seq<Element>, linkType: string,
                     i: nat, done: seq<string>)
    requires i < |links|
    ensures
      var src := LinkURL(web, links[i], linkType);
      var next := if WantsLink(s.config, followed, src) then done + [src] else done;
      LinkPlan(web, s, followed, links[i..], linkType, done)
        == if PathWithoutHome(s, src).Fail? then (next, Some(PathWithoutHome(s, src).exception))
           else LinkPlan(web, s, followed, links[i + 1..], linkType, next)
  {
    assert links[i..][0] == links[i];
    assert links[i..][1..] == links[i + 1..];
  }

  /** followLinks keeps what was enqueued before. */
  lemma {:induction false} LinkPlanExtends(web: Web, s: Site, followed: set<string>, links: seq<Element>,
                                           linkType: string, done: seq<string>)
    ensures done <= LinkPlan(web, s, followed, links, linkType, done).0
    decreases |links|
  {
    if links != [] {
      var src := LinkURL(web, links[0], linkType);
      var next := if WantsLink(s.config, followed, src) then done + [src] else done;
      LinkPlanExtends(web, s, followed, links[1..], linkType, next);
    }
  }

  /** followLinks adds only wanted URLs of the page's links. */
  lemma {:induction false} LinkPlanWanted(web: Web, s: Site, followed: set<string>, links: seq<Element>,
                                          linkType: string, done: seq<string>)
    ensures forall k :: |done| <= k < |LinkPlan(web, s, followed, links, linkType, done).0| ==>
      && WantsLink(s.config, followed, LinkPlan(web, s, followed, links, linkType, done).0[k])
      && exists e :: e in links && LinkURL(web, e, linkType) == LinkPlan(web, s, followed, links, linkType, done).0[k]
    decreases |links|
  {
    if links != [] {
      var src := LinkURL(web, links[0], linkType);
      var next := if WantsLink(s.config, followed, src) then done + [src] else done;
      var q := LinkPlan(web, s, followed, links, linkType, done).0;
      LinkPlanWanted(web, s, followed, links[1..], linkType, next);
      LinkPlanExtends(web, s, followed, links[1..], linkType, next);
      assert next <= q;
      forall k | |done| <= k < |q|
        ensures WantsLink(s.config, followed, q[k]) && exists e :: e in links && LinkURL(web, e, linkType) == q[k]
      {
        if k < |next| {
          assert q[k] == next[k] == src;
          assert links[0] in links;
        } else {
          var q1 := LinkPlan(web, s, followed, links[1..], linkType, next).0;
          assert q == q1;
          assert WantsLink(s.config, followed, q1[k]);
          var e :| e in links[1..] && LinkURL(web, e, linkType) == q1[k];
          assert e in links;
        }
      }
    }
  }

  /** When followLinks runs to the end, it has enqueued every wanted link. */
  lemma {:induction false} LinkPlanComplete(web: Web, s: Site, followed: set<string>, links: seq<Element>,
                                            linkType: string, done: seq<string>)
    requires LinkPlan(web, s, followed, links, linkType, done).1 == None
    ensures forall e :: e in links && WantsLink(s.config, followed, LinkURL(web, e, linkType)) ==>
              LinkURL(web, e, linkType) in LinkPlan(web, s, followed, links, linkType, done).0
    decreases |links|
  {
    if links != [] {
      var src := LinkURL(web, links[0], linkType);
      var next := if WantsLink(s.config, followed, src) then done + [src] else done;
      LinkPlanComplete(web, s, followed, links[1..], linkType, next);
      LinkPlanExtends(web, s, followed, links[1..], linkType, next);
      forall e | e in links && WantsLink(s.config, followed, LinkURL(web, e, linkType))
        ensures LinkURL(web, e, linkType) in LinkPlan(web, s, followed, links, linkType, done).0
      {
        if e != links[0] {
          assert e in links[1..];
        } else {
          assert next[|next| - 1] == src;
        }
      }
    }
  }

  /** Without a website URL, a link whose URL contains "http" ends
      followLinks with a NullPointerException. */
  lemma HttpLinkEndsFollowLinks(web: Web, s: Site, followed: set<string>, links: seq<Element>, linkType: string,
                                done: seq<string>)
    requires links != [] && s.config.websiteURL == None
    requires Contains(LinkURL(web, links[0], linkType), "http")
    ensures LinkPlan(web, s, followed, links, linkType, done).1 == Some(NULL_DEREF)
  {
  }

  /** The queue went from `before` to `after` by appending URLs that
      followLinks wants: rule-followable, not yet followed and not empty. */
  ghost predicate OnlyWantedAdded(c: Config, followed: set<string>, before: seq<string>, after: seq<string>) {
    before <= after && forall k :: |before| <= k < |after| ==> WantsLink(c, followed, after[k])
  }

  /** After offering, position `k` past the old contents holds item `k - |c|`. */
  lemma OfferTail(c: seq<string>, cap: nat, items: seq<string>)
    requires |c| <= cap
    ensures c <= Offer(c, cap, items) && |Offer(c, cap, items)| <= |c| + |items|
    ensures forall k :: |c| <= k < |Offer(c, cap, items)| ==> Offer(c, cap, items)[k] == items[k - |c|]
  {
    var q := Offer(c, cap, items);
    OfferTruncates(c, cap, items);
    assert q[..|c|] == c;
    forall k | |c| <= k < |q|
      ensures q[k] == items[k - |c|]
    {
      assert q[k] == (c + items)[k];
    }
  }

  /** Offering only wanted URLs adds only wanted URLs. */
  lemma OfferWanted(c: Config, followed: set<string>, c0: seq<string>, cap: nat, items: seq<string>)
    requires |c0| <= cap
    requires forall k :: 0 <= k < |items| ==> WantsLink(c, followed, items[k])
    ensures OnlyWantedAdded(c, followed, c0, Offer(c0, cap, items))
  {
    var q := Offer(c0, cap, items);
    OfferTail(c0, cap, items);
    forall k | |c0| <= k < |q|
      ensures WantsLink(c, followed, q[k])
    {
      assert q[k] == items[k - |c0|];
    }
  }

  /** followLinks enqueues only wanted URLs, whatever the queue held. */
  lemma FollowLinksWanted(c0: seq<string>, cap: nat, web: Web, s: Site, followed: set<string>,
                          links: seq<Element>, linkType: string)
    requires |c0| <= cap
    ensures OnlyWantedAdded(s.config, followed, c0, Offer(c0, cap, LinkPlan(web, s, followed, links, linkType, []).0))
  {
    var items := LinkPlan(web, s, followed, links, linkType, []).0;
    LinkPlanWanted(web, s, followed, links, linkType, []);
    OfferWanted(s.config, followed, c0, cap, items);
  }

  /** redownloadExistingFiles, for one file already under the working
      directory: the URL it was saved from is homeURL followed by the part of
      its path after the first occurrence of subdir. Where subdir does not
      occur, Java's arithmetic starts the cut at |subdir| - 1, and past the
      end of the path substring raises. */
  function ExistingURL(s: Site, path: string): Result<string> {
    var subdir := s.config.subdir;
    var start := IndexOf(path, subdir) + |subdir|;
    if start <= |path| then Ok(s.homeURL + path[start..])
    else Fail(STRING_INDEX_OUT_OF_BOUNDS)
  }

  /** Where subdir occurs in the path, the URL is homeURL followed by what
      comes after it; where it does not, the cut starts at |subdir| - 1. */
  lemma ExistingURLCases(s: Site, path: string)
    ensures Contains(path, s.config.subdir) ==>
      var r := ExistingURL(s, path);
      && r.Ok? && StartsWith(r.value, s.homeURL)
      && path == path[..IndexOf(path, s.config.subdir)] + s.config.subdir + r.value[|s.homeURL|..]
    ensures !Contains(path, s.config.subdir) ==>
      && (|s.config.subdir| - 1 <= |path| ==> ExistingURL(s, path) == Ok(s.homeURL + path[|s.config.subdir| - 1..]))
      && (|s.config.subdir| - 1 > |path| ==> ExistingURL(s, path) == Fail(STRING_INDEX_OUT_OF_BOUNDS))
  {
    var subdir := s.config.subdir;
    var index := IndexOf(path, subdir);
    if index != -1 {
      var start := index + |subdir|;
      assert path[index..start] == subdir;
      assert path == path[..index] + subdir + path[start..];
      assert (s.homeURL + path[start..])[|s.homeURL|..] == path[start..];
    }
  }

  /** The URLs of the existing files, in order, or the exception of the first
      file whose path cannot be cut. */
  function ExistingURLs(s: Site, files: seq<string>): Result<seq<string>>
    decreases |files|
  {
    if files == [] then Ok([])
    else
      match ExistingURLs(s, files[..|files| - 1])
      case Fail(x) => Fail(x)
      case Ok(us) =>
        match ExistingURL(s, files[|files| - 1])
        case Fail(x) => Fail(x)
        case Ok(u) => Ok(us + [u])
  }

  /** The list succeeds exactly when every file does, and holds their URLs. */
  lemma {:induction false} ExistingURLsAll(s: Site, files: seq<string>)
    ensures ExistingURLs(s, files).Ok? <==> forall i :: 0 <= i < |files| ==> ExistingURL(s, files[i]).Ok?
    ensures ExistingURLs(s, files).Ok? ==>
      |ExistingURLs(s, files).value| == |files|
      && forall i :: 0 <= i < |files| ==> ExistingURLs(s, files).value[i] == ExistingURL(s, files[i]).value
    decreases |files|
  {
    if files != [] {
      var init := files[..|files| - 1];
      ExistingURLsAll(s, init);
      assert forall i :: 0 <= i < |init| ==> files[i] == init[i];
    }
  }

  /** Once a prefix of the file list fails, the whole list does. */
  lemma {:induction false} RestFails(s: Site, files: seq<string>, i: nat)
    requires i <= |files| && ExistingURLs(s, files[..i]).Fail?
    ensures ExistingURLs(s, files) == ExistingURLs(s, files[..i])
    decreases |files| - i
  {
    if i < |files| {
      assert files[..i + 1][..i] == files[..i];
      RestFails(s, files, i + 1);
    } else {
      assert files[..i] == files;
    }
  }

  /** One more file whose URL can be cut. */
  lemma ExistingURLsSnoc(s: Site, files: seq<string>, i: nat, urls: seq<string>)
    requires i < |files| && ExistingURLs(s, files[..i]) == Ok(urls) && ExistingURL(s, files[i]).Ok?
    ensures ExistingURLs(s, files[..i + 1]) == Ok(urls + [ExistingURL(s, files[i]).value])
  {
    assert files[..i + 1][..i] == files[..i];
  }

  /** A file whose URL cannot be cut ends the list with its exception. */
  lemma ExistingURLsStops(s: Site, files: seq<string>, i: nat, urls: seq<string>)
    requires i < |files| && ExistingURLs(s, files[..i]) == Ok(urls) && ExistingURL(s, files[i]).Fail?
    ensures ExistingURLs(s, files) == Fail(ExistingURL(s, files[i]).exception)
  {
    assert files[..i + 1][..i] == files[..i];
    RestFails(s, files, i + 1);
  }

  /** Reconciliation counts a URL whose type is downloadable as a file, and
      otherwise counts it as a page if the rules would follow it. */
  predicate CountsAsFile(c: Config, u: string) {
    ShouldDownload(c, AfterLast(u, '.'))
  }

  predicate CountsAsPage(c: Config, u: string) {
    !CountsAsFile(c, u) && ShouldFollowType(c, u, AfterLast(u, '.'))
  }

  /** The files and the pages reconciliation enters for `urls`. */
  function AsDownloaded(c: Config, urls: seq<string>): set<string>
    decreases |urls|
  {
    if urls == [] then {}
    else
      var init, u := urls[..|urls| - 1], urls[|urls| - 1];
      AsDownloaded(c, init) + (if CountsAsFile(c, u) then {u} else {})
  }

  function AsFollowed(c: Config, urls: seq<string>): set<string>
    decreases |urls|
  {
    if urls == [] then {}
    else
      var init, u := urls[..|urls| - 1], urls[|urls| - 1];
      AsFollowed(c, init) + (if CountsAsPage(c, u) then {u} else {})
  }

  /** Reconciling one more URL. */
  lemma ReconciledSnoc(c: Config, urls: seq<string>, u: string)
    ensures AsDownloaded(c, urls + [u]) == AsDownloaded(c, urls) + (if CountsAsFile(c, u) then {u} else {})
    ensures AsFollowed(c, urls + [u]) == AsFollowed(c, urls) + (if CountsAsPage(c, u) then {u} else {})
  {
    assert (urls + [u])[..|urls|] == urls;
  }

  /** Marking one more URL keeps the sets equal to their start plus what
      reconciliation enters for the URLs so far. */
  lemma ReconciledStep(c: Config, urls: seq<string>, u: string, d0: set<string>, f0: set<string>,
                       d: set<string>, f: set<string>)
    requires d == d0 + AsDownloaded(c, urls) && f == f0 + AsFollowed(c, urls)
    ensures d + (if CountsAsFile(c, u) then {u} else {}) == d0 + AsDownloaded(c, urls + [u])
    ensures f + (if CountsAsPage(c, u) then {u} else {}) == f0 + AsFollowed(c, urls + [u])
  {
    ReconciledSnoc(c, urls, u);
    UnionStep(d0, AsDownloaded(c, urls), if CountsAsFile(c, u) then {u} else {});
    UnionStep(f0, AsFollowed(c, urls), if CountsAsPage(c, u) then {u} else {});
  }

  /** Regrouping a union: a proof step of ReconciledStep, which the solver
      does not find unaided over the reconciliation sets. */
  lemma UnionStep(a: set<string>, b: set<string>, x: set<string>)
    ensures (a + b) + x == a + (b + x)
  {
  }

  /** Reconciliation enters exactly the URLs of each kind. */
  lemma {:induction false} ReconciledMembers(c: Config, urls: seq<string>)
    ensures forall u :: u in AsDownloaded(c, urls) <==> u in urls && CountsAsFile(c, u)
    ensures forall u :: u in AsFollowed(c, urls) <==> u in urls && CountsAsPage(c, u)
    decreases |urls|
  {
    if urls != [] {
      var init := urls[..|urls| - 1];
      ReconciledMembers(c, init);
      assert urls == init + [urls[|urls| - 1]];
    }
  }

  /** A reconciled URL counts as a file or as a page, never both. */
  lemma ReconciledOnce(c: Config, urls: seq<string>)
    ensures AsDownloaded(c, urls) * AsFollowed(c, urls) == {}
  {
    ReconciledMembers(c, urls);
  }

  /** A site whose working directory holds `a.html` and `b.jpg`, with "jpg"
      a download type and "html" neither a download nor a follow type: only
      b.jpg's URL is entered, as a downloaded file. */
  lemma ReconcileExample(c: Config)
    requires "jpg" in c.filesToDownload && "html" !in c.filesToDownload && "html" !in c.linksToFollow
    ensures AsDownloaded(c, ["http://site/a.html", "http://site/b.jpg"]) == {"http://site/b.jpg"}
    ensures AsFollowed(c, ["http://site/a.html", "http://site/b.jpg"]) == {}
  {
    ExampleTypes();
  }

  lemma ExampleTypes()
    ensures ToLower(AfterLast("http://site/a.html", '.')) == "html"
    ensures ToLower(AfterLast("http://site/b.jpg", '.')) == "jpg"
  {
    assert AfterLast("http://site/a.html", '.') == "html";
    assert AfterLast("http://site/b.jpg", '.') == "jpg";
  }

  /** The page downloadWebpages fetches for a queued URL: for a local crawl a
      URL containing "http" is first mapped to its file with getFileLocation. */
  function PageTarget(s: Site, url: string): Result<string> {
    if s.config.localFile && Contains(url, "http") then GetFileLocation(s, url) else Ok(url)
  }

  /** The record buildBSON makes for a page, its source `src` and length:
      withoutHomeURL(src) is evaluated first, as an argument. */
  function PageRecord(web: Web, s: Site, src: string, length: int, page: Element): Result<Record> {
    match PathWithoutHome(s, src)
    case Fail(x) => Fail(x)
    case Ok(savLoc) =>
      Build(PageDefaults(s.config, src, savLoc, web.formatSize(length)), web.dom, web.intValue, page, [],
            s.config.toIndex)
  }

  /** The URL of a page's content in content mode: the `contentLoc`
      attribute of the first element matching the content selector, or
      nothing when no element matches. */
  function ContentSource(web: Web, c: Config, page: Element): Option<string> {
    var matches := web.dom.select([page], c.contentType);
    if matches == [] then None else Some(web.dom.absUrl(matches[0], c.contentLoc))
  }

  /** What downloadFile returns for `src` while `downloaded` holds the files
      saved so far. */
  function FileLength(web: Web, s: Site, src: string, downloaded: set<string>): Result<int> {
    if FileAllowed(s.config, src) && src !in downloaded then SaveFile(web, s, src) else Ok(0)
  }

  /** The images, style sheets and scripts of a page: the `src` of every
      img, the `href` of every link and the `src` of every script element,
      made absolute. */
  predicate IsAsset(web: Web, page: Element, u: string) {
    || u in Sources(web, web.dom.select([page], "img"), "src")
    || u in Sources(web, web.dom.select([page], "link"), "href")
    || u in Sources(web, web.dom.select([page], "script"), "src")
  }

  /** `rec` is the record downloadWebpages inserts for the page `page`
      fetched from `t`: the rules index it, saving it raised nothing, and
      the record is built from the saved length. */
  ghost predicate PageIndexed(web: Web, s: Site, t: string, page: Element, rec: Record) {
    var length := SaveByteBuffer(web, s, web.pageLength(page), t);
    && ShouldIndex(s.config, web.dom, page, t) && length.Ok?
    && PageRecord(web, s, t, length.value, page) == Ok(rec)
  }

  /** run reconciles the files already saved unless it redownloads them or
      crawls local files. */
  predicate Reconciles(c: Config) {
    !c.redownloadExistingFiles && !c.localFile
  }

  /** One round of the crawl loop: the URL taken from the queue and whether
      it was handled as a full-site page (downloadWebpages) or in content
      mode (downloadContentOnly). */
  datatype Round = Round(url: string, fullSite: bool)

  /** The crawl mode run picks from saveType, in any case: full-site,
      content, or none. */
  function CrawlMode(c: Config): Option<bool> {
    if EqualsIgnoreCase(c.saveType, "fullSite") then Some(true)
    else if EqualsIgnoreCase(c.saveType, "content") then Some(false)
    else None
  }

  /** What a crawl from `home` in `mode`, bounded by `fuel` rounds, leaves
      behind: with no mode nothing is crawled; otherwise the first round
      takes `home` (when a round is allowed at all), every round runs in the
      chosen mode, and a walk that stops before the bound without an
      exception has emptied the queue (`rest`). */
  ghost predicate CrawledFrom(rounds: seq<Round>, home: string, mode: Option<bool>, fuel: nat, ok: bool,
                              rest: seq<string>)
  {
    && |rounds| <= fuel
    && (mode.None? ==> rounds == [] && rest == [])
    && (mode.Some? ==>
          && (fuel > 0 ==> |rounds| > 0 && rounds[0] == Round(home, mode.value))
          && (forall k :: 0 <= k < |rounds| ==> rounds[k].fullSite == mode.value)
          && (ok && |rounds| < fuel ==> rest == []))
  }

  /** What run leaves behind, given the configuration, the URLs of the files
      already saved (`existing`), whether it ended without an exception,
      the pages fetched, the rounds of the loop, the final homeURL and what
      is left in the queue. When reconciliation fails nothing is crawled;
      otherwise the crawl starts from the homepage in the configured mode,
      homeURL is narrowed to its directory for a full-site crawl, and no
      page reconciliation entered as followed is fetched. */
  ghost predicate RunOutcome(c: Config, existing: Result<seq<string>>, fuel: nat, ok: bool,
                             fetched: seq<string>, rounds: seq<Round>, home: string, rest: seq<string>)
  {
    && (Reconciles(c) && existing.Fail? ==> !ok && fetched == [] && rounds == [] && home == c.homepage)
    && (!(Reconciles(c) && existing.Fail?) ==>
          && CrawledFrom(rounds, c.homepage, CrawlMode(c), fuel, ok, rest)
          && home == if CrawlMode(c) == Some(true) then HomeDirectory(c.homepage) else c.homepage)
    && (Reconciles(c) && existing.Ok? ==> forall u :: u in fetched ==> u !in AsFollowed(c, existing.value))
  }

  class WebDownloader {
    var linksFollowed: set<string>
    var downloadedFiles: set<string>
    var homeURL: string
    var workingDir: string
    var linksToFollow: Queue
    /** The rule set as loaded (the static state of Rules), which the crawl
        only reads. */
    const config: Config
    /** The records handed to the database, in order. */
    var inserted: seq<Record>

    /** The URLs downloadWebpage has fetched, and the files saveFile has
        saved, since the crawl began, in order. */
    ghost var fetched: seq<string>
    ghost var saved: seq<string>
    /** The rounds of the crawl loop since the crawl began, in order. */
    ghost var rounds: seq<Round>

    /** The settings the crawl reads. */
    function Settings(): Site
      reads this`homeURL, this`workingDir
    {
      Site(config, homeURL, workingDir)
    }

    /** The bookkeeping invariant: no page is fetched twice and no file saved
        twice, because each is entered into its set when it is fetched or
        saved; every page fetched lies under homeURL. */
    ghost predicate Bookkeeping()
      reads this`fetched, this`linksFollowed, this`saved, this`downloadedFiles, this`homeURL
    {
      && NoDuplicates(fetched) && (forall u :: u in fetched ==> u in linksFollowed)
      && NoDuplicates(saved) && (forall u :: u in saved ==> u in downloadedFiles)
      && (forall u :: u in fetched ==> StartsWith(u, homeURL))
    }

    ghost predicate Valid()
      reads this, linksToFollow, linksToFollow.queue
    {
      linksToFollow.Valid() && Bookkeeping()
    }

    constructor (rules: Rules)
      ensures Valid() && fresh(linksToFollow) && fresh(linksToFollow.queue)
      ensures config == rules.config
      ensures linksFollowed == {} && downloadedFiles == {} && inserted == []
      ensures fetched == [] && saved == [] && rounds == []
    {
      config := rules.config;
      linksFollowed, downloadedFiles := {}, {};
      homeURL, workingDir := "", "";
      linksToFollow := new Queue(QUEUE_SIZE);
      inserted := [];
      fetched, saved, rounds := [], [], [];
    }

    /** Enter a page URL into linksFollowed as it is fetched. */
    method RecordFetch(url: string)
      requires Bookkeeping() && url !in linksFollowed && StartsWith(url, homeURL)
      modifies this`linksFollowed, this`fetched
      ensures Bookkeeping()
      ensures linksFollowed == old(linksFollowed) + {url} && fetched == old(fetched) + [url]
    {
      linksFollowed := linksFollowed + {url};
      fetched := fetched + [url];
    }

    /** Enter a file URL into downloadedFiles as it is saved. */
    method RecordSave(src: string)
      requires Bookkeeping() && src !in downloadedFiles
      modifies this`downloadedFiles, this`saved
      ensures Bookkeeping()
      ensures downloadedFiles == old(downloadedFiles) + {src} && saved == old(saved) + [src]
    {
      downloadedFiles := downloadedFiles + {src};
      saved := saved + [src];
    }

    /** downloadWebpage: a URL not yet followed that lies under homeURL is
        entered into linksFollowed before it is fetched, so it is fetched at
        most once; every failure, and every other URL, gives null. */
    method DownloadWebpage(web: Web, url: string) returns (page: Option<Element>)
      requires Bookkeeping()
      modifies this`linksFollowed, this`fetched
      ensures Bookkeeping()
      ensures url !in old(linksFollowed) && StartsWith(url, homeURL) ==>
        && page == web.fetch(url)
        && linksFollowed == old(linksFollowed) + {url}
        && fetched == old(fetched) + [url]
      ensures !(url !in old(linksFollowed) && StartsWith(url, homeURL)) ==>
        page == None && linksFollowed == old(linksFollowed) && fetched == old(fetched)
    {
      if url !in linksFollowed && StartsWith(url, homeURL) {
        RecordFetch(url);
        return web.fetch(url);
      }
      return None;
    }

    /** downloadFile: save the file an element refers to, once, when the
        rules allow following and downloading it; return its length, or 0
        when it is not saved. */
    method DownloadFile(web: Web, elem: Element, linkSrc: string) returns (r: Result<int>)
      requires Bookkeeping()
      modifies this`downloadedFiles, this`saved
      ensures Bookkeeping()
      ensures
        var src := web.dom.absUrl(elem, linkSrc);
        var wanted := FileAllowed(config, src) && src !in old(downloadedFiles);
        && (wanted ==> r == SaveFile(web, Settings(), src))
        && (!wanted ==> r == Ok(0))
        && (wanted && r.Ok? ==> downloadedFiles == old(downloadedFiles) + {src} && saved == old(saved) + [src])
        && (!(wanted && r.Ok?) ==> downloadedFiles == old(downloadedFiles) && saved == old(saved))
    {
      var src := web.dom.absUrl(elem, linkSrc);
      var length := Ok(0);
      if FileAllowed(config, src) && src !in downloadedFiles {
        length := SaveFile(web, Settings(), src);
        if length.Fail? {
          return length;
        }
        RecordSave(src);
      }
      return length;
    }

    /** One link of followLinks: enqueue `src` when it is wanted. `done` is
        what has been offered to the queue since it held `c0`. */
    static method OfferLink(queue: Queue, c: Config, followed: set<string>, src: string,
                            ghost c0: seq<string>, ghost done: seq<string>)
      returns (ghost next: seq<string>)
      requires queue.Valid() && queue.Contents == Offer(c0, queue.queue.Length, done)
      modifies queue, queue.queue
      ensures queue.Valid() && queue.queue == old(queue.queue)
      ensures next == if WantsLink(c, followed, src) then done + [src] else done
      ensures queue.Contents == Offer(c0, queue.queue.Length, next)
    {
      next := done;
      if WantsLink(c, followed, src) {
        OfferSnoc(c0, queue.queue.Length, done, src);
        var _ := queue.Enqueue(src);
        next := done + [src];
      }
    }

    /** followLinks: offer the cleaned URL of every `tag` element to the queue
        when the rules want it, it has not been followed and it is not empty. */
    method FollowLinks(web: Web, page: Element, tag: string, linkType: string) returns (r: Result<()>)
      requires Valid()
      modifies linksToFollow, linksToFollow.queue
      ensures Valid() && linksToFollow.queue == old(linksToFollow.queue)
      ensures
        var plan := LinkPlan(web, Settings(), linksFollowed, web.dom.select([page], tag), linkType, []);
        && linksToFollow.Contents == Offer(old(linksToFollow.Contents), linksToFollow.queue.Length, plan.0)
        && (r.Fail? <==> plan.1.Some?)
        && (r.Fail? ==> r.exception == plan.1.value)
    {
      var links := web.dom.select([page], tag);
      var queue := linksToFollow;
      var site := Settings();
      var followed := linksFollowed;
      ghost var plan := LinkPlan(web, site, followed, links, linkType, []);
      ghost var c0 := queue.Contents;
      ghost var done: seq<string> := [];
      assert links[0..] == links;
      var i := 0;
      while i < |links|
        invariant 0 <= i <= |links|
        invariant queue.Valid() && queue.queue == old(queue.queue)
        invariant queue.Contents == Offer(c0, queue.queue.Length, done)
        invariant LinkPlan(web, site, followed, links[i..], linkType, done) == plan
      {
        var src := CleanAbsoluteUrl(web.dom.absUrl(links[i], linkType));
        var path := PathWithoutHome(site, src);
        LinkPlanStep(web, site, followed, links, linkType, i, done);
        done := OfferLink(queue, site.config, followed, src, c0, done);
        if path.Fail? {
          return Fail(path.exception);
        }
        i := i + 1;
      }
      assert links[i..] == [];
      return Ok(());
    }

    /** downloadFiles: downloadFile for every `tag` element of the page, in
        order; an exception ends the loop. */
    method DownloadFiles(web: Web, page: Element, tag: string, linkSrc: string) returns (r: Result<()>)
      requires Bookkeeping()
      modifies this`downloadedFiles, this`saved
      ensures Bookkeeping()
      ensures old(downloadedFiles) <= downloadedFiles
      ensures forall u :: u in downloadedFiles - old(downloadedFiles) ==>
        u in Sources(web, web.dom.select([page], tag), linkSrc) && FileAllowed(config, u)
      ensures r.Ok? ==> forall u :: u in Sources(web, web.dom.select([page], tag), linkSrc) && FileAllowed(config, u)
                          ==> u in downloadedFiles
    {
      var elements := web.dom.select([page], tag);
      ghost var sources := Sources(web, elements, linkSrc);
      var i := 0;
      while i < |elements|
        invariant 0 <= i <= |elements|
        invariant Bookkeeping()
        invariant old(downloadedFiles) <= downloadedFiles
        invariant forall u :: u in downloadedFiles - old(downloadedFiles) ==>
          u in sources[..i] && FileAllowed(config, u)
        invariant forall u :: u in sources[..i] && FileAllowed(config, u) ==> u in downloadedFiles
      {
        var length := DownloadFile(web, elements[i], linkSrc);
        if length.Fail? {
          return Fail(length.exception);
        }
        assert sources[..i + 1] == sources[..i] + [sources[i]];
        i := i + 1;
      }
      assert sources[..i] == sources;
      return Ok(());
    }

    /** One file of redownloadExistingFiles: a downloadable URL goes into
        downloadedFiles, else a followable one into linksFollowed. */
    method MarkExisting(visitedURL: string)
      requires Bookkeeping()
      modifies this`downloadedFiles, this`linksFollowed
      ensures Bookkeeping()
      ensures downloadedFiles == old(downloadedFiles)
        + (if CountsAsFile(config, visitedURL) then {visitedURL} else {})
      ensures linksFollowed == old(linksFollowed)
        + (if CountsAsPage(config, visitedURL) then {visitedURL} else {})
    {
      var fileType := AfterLast(visitedURL, '.');
      if ShouldDownload(config, fileType) {
        downloadedFiles := downloadedFiles + {visitedURL};
      } else if ShouldFollowType(config, visitedURL, fileType) {
        linksFollowed := linksFollowed + {visitedURL};
      }
    }

    /** The body of redownloadExistingFiles' loop for file `i`: cut its URL
        from its path and, when that succeeds, mark the URL. */
    method ReconcileFile(site: Site, files: seq<string>, i: nat, ghost urls: seq<string>)
      returns (visited: Result<string>)
      requires Bookkeeping() && site.config == config
      requires i < |files| && ExistingURLs(site, files[..i]) == Ok(urls)
      modifies this`downloadedFiles, this`linksFollowed
      ensures Bookkeeping()
      ensures visited == ExistingURL(site, files[i])
      ensures visited.Fail? ==>
        && ExistingURLs(site, files) == Fail(visited.exception)
        && downloadedFiles == old(downloadedFiles) && linksFollowed == old(linksFollowed)
      ensures visited.Ok? ==>
        && ExistingURLs(site, files[..i + 1]) == Ok(urls + [visited.value])
        && downloadedFiles == old(downloadedFiles)
             + (if CountsAsFile(site.config, visited.value) then {visited.value} else {})
        && linksFollowed == old(linksFollowed)
             + (if CountsAsPage(site.config, visited.value) then {visited.value} else {})
    {
      visited := ExistingURL(site, files[i]);
      if visited.Fail? {
        ExistingURLsStops(site, files, i, urls);
        return;
      }
      ExistingURLsSnoc(site, files, i, urls);
      MarkExisting(visited.value);
    }

    /** The loop of redownloadExistingFiles, with the settings it reads passed in. */
    method ReconcileFiles(site: Site, files: seq<string>) returns (r: Result<()>)
      requires Bookkeeping() && site.config == config
      modifies this`downloadedFiles, this`linksFollowed
      ensures Bookkeeping()
      ensures r == if ExistingURLs(site, files).Ok? then Ok(()) else Fail(ExistingURLs(site, files).exception)
      ensures r.Ok? ==>
        && downloadedFiles == old(downloadedFiles) + AsDownloaded(site.config, ExistingURLs(site, files).value)
        && linksFollowed == old(linksFollowed) + AsFollowed(site.config, ExistingURLs(site, files).value)
      ensures old(downloadedFiles) <= downloadedFiles && old(linksFollowed) <= linksFollowed
    {
      ghost var d0, f0 := downloadedFiles, linksFollowed;
      ghost var urls: seq<string> := [];
      var i := 0;
      while i < |files|
        invariant 0 <= i <= |files|
        invariant Bookkeeping()
        invariant ExistingURLs(site, files[..i]) == Ok(urls)
        invariant downloadedFiles == d0 + AsDownloaded(site.config, urls)
        invariant linksFollowed == f0 + AsFollowed(site.config, urls)
        invariant d0 <= downloadedFiles && f0 <= linksFollowed
      {
        ghost var d, f := downloadedFiles, linksFollowed;
        var visited := ReconcileFile(site, files, i, urls);
        if visited.Fail? {
          return Fail(visited.exception);
        }
        ReconciledStep(site.config, urls, visited.value, d0, f0, d, f);
        urls := urls + [visited.value];
        i := i + 1;
      }
      assert files[..i] == files;
      return Ok(());
    }

    /** redownloadExistingFiles over `files`, the absolute paths of the
        regular files under the working directory in the order the directory
        walk visits them: every file's URL is entered into downloadedFiles or
        linksFollowed, so the crawl does not fetch it again. */
    method RedownloadExistingFiles(files: seq<string>) returns (r: Result<()>)
      requires Bookkeeping()
      modifies this`downloadedFiles, this`linksFollowed
      ensures Bookkeeping()
      ensures r.Ok? <==> ExistingURLs(Settings(), files).Ok?
      ensures r.Fail? ==> r.exception == ExistingURLs(Settings(), files).exception
      ensures r.Ok? ==>
        && downloadedFiles == old(downloadedFiles) + AsDownloaded(config, ExistingURLs(Settings(), files).value)
        && linksFollowed == old(linksFollowed) + AsFollowed(config, ExistingURLs(Settings(), files).value)
      ensures old(downloadedFiles) <= downloadedFiles && old(linksFollowed) <= linksFollowed
    {
      r := ReconcileFiles(Settings(), files);
    }

    /** connect.insert(buildBSON(src, withoutHomeURL(src), length, page)):
        withoutHomeURL is evaluated first, and an exception from it or from
        the record builder means nothing is inserted. */
    method IndexPage(web: Web, src: string, length: int, page: Element) returns (r: Result<()>)
      modifies this`inserted
      ensures r.Fail? <==> PageRecord(web, Settings(), src, length, page).Fail?
      ensures r.Ok? ==> inserted == old(inserted) + [PageRecord(web, Settings(), src, length, page).value]
      ensures r.Fail? ==> inserted == old(inserted) && r.exception == PageRecord(web, Settings(), src, length, page).exception
    {
      var savLoc := PathWithoutHome(Settings(), src);
      if savLoc.Fail? {
        return Fail(savLoc.exception);
      }
      var rec := BuildBSON(config, web.dom, web.intValue, web.formatSize, src, savLoc.value, length, page);
      if rec.Fail? {
        return Fail(rec.exception);
      }
      inserted := inserted + [rec.value];
      return Ok(());
    }

    /** followLinks(page, "a", "href"), with what it means for the queue. */
    method FollowPageLinks(web: Web, page: Element) returns (r: Result<()>)
      requires Valid()
      modifies linksToFollow, linksToFollow.queue
      ensures Valid() && linksToFollow.queue == old(linksToFollow.queue)
      ensures
        var plan := LinkPlan(web, Settings(), linksFollowed, web.dom.select([page], "a"), "href", []);
        && linksToFollow.Contents == Offer(old(linksToFollow.Contents), linksToFollow.queue.Length, plan.0)
        && (r.Fail? <==> plan.1.Some?)
      ensures OnlyWantedAdded(config, linksFollowed, old(linksToFollow.Contents), linksToFollow.Contents)
    {
      ghost var c0 := linksToFollow.Contents;
      r := FollowLinks(web, page, "a", "href");
      FollowLinksWanted(c0, linksToFollow.queue.Length, web, Settings(), linksFollowed,
                        web.dom.select([page], "a"), "href");
    }

    /** The images, style sheets and scripts of a page, in that order. */
    method DownloadAssets(web: Web, page: Element) returns (r: Result<()>)
      requires Bookkeeping()
      modifies this`downloadedFiles, this`saved
      ensures Bookkeeping()
      ensures old(downloadedFiles) <= downloadedFiles
      ensures forall u :: u in downloadedFiles - old(downloadedFiles) ==> IsAsset(web, page, u) && FileAllowed(config, u)
      ensures r.Ok? ==> forall u :: IsAsset(web, page, u) && FileAllowed(config, u) ==> u in downloadedFiles
    {
      r := DownloadFiles(web, page, "img", "src");
      if r.Fail? {
        return;
      }
      r := DownloadFiles(web, page, "link", "href");
      if r.Fail? {
        return;
      }
      r := DownloadFiles(web, page, "script", "src");
    }

    /** The end of downloadWebpages: download the page's images, style
        sheets and scripts, then index the page when the rules say so. */
    method FinishPage(web: Web, target: string, page: Element, length: int) returns (r: Result<()>)
      requires Bookkeeping()
      modifies this`downloadedFiles, this`saved, this`inserted
      ensures Bookkeeping()
      ensures old(downloadedFiles) <= downloadedFiles
      ensures forall u :: u in downloadedFiles - old(downloadedFiles) ==> IsAsset(web, page, u) && FileAllowed(config, u)
      ensures r.Ok? ==> forall u :: IsAsset(web, page, u) && FileAllowed(config, u) ==> u in downloadedFiles
      ensures old(inserted) <= inserted && |inserted| <= |old(inserted)| + 1
      ensures |inserted| > |old(inserted)| ==>
        && ShouldIndex(config, web.dom, page, target)
        && PageRecord(web, Settings(), target, length, page) == Ok(inserted[|inserted| - 1])
      ensures r.Ok? && ShouldIndex(config, web.dom, page, target) ==> |inserted| == |old(inserted)| + 1
    {
      r := DownloadAssets(web, page);
      if r.Fail? {
        return;
      }
      if ShouldIndex(config, web.dom, page, target) {
        r := IndexPage(web, target, length, page);
      }
    }

    /** The part of downloadWebpages after the page at `target` has been
        fetched: save it, follow its links, download its files and index it. */
    method ProcessPage(web: Web, target: string, page: Element) returns (r: Result<()>)
      requires Valid()
      modifies this`downloadedFiles, this`saved, this`inserted, linksToFollow, linksToFollow.queue
      ensures Valid() && linksToFollow.queue == old(linksToFollow.queue)
      ensures SaveByteBuffer(web, Settings(), web.pageLength(page), target).Fail? ==>
        && r == Fail(SaveByteBuffer(web, Settings(), web.pageLength(page), target).exception)
        && linksToFollow.Contents == old(linksToFollow.Contents)
        && downloadedFiles == old(downloadedFiles) && inserted == old(inserted)
      ensures SaveByteBuffer(web, Settings(), web.pageLength(page), target).Ok? ==>
        linksToFollow.Contents == Offer(old(linksToFollow.Contents), linksToFollow.queue.Length,
                                        LinkPlan(web, Settings(), linksFollowed, web.dom.select([page], "a"), "href", []).0)
      ensures OnlyWantedAdded(config, linksFollowed, old(linksToFollow.Contents), linksToFollow.Contents)
      ensures old(downloadedFiles) <= downloadedFiles
      ensures r.Ok? ==> forall u :: IsAsset(web, page, u) && FileAllowed(config, u) ==> u in downloadedFiles
      ensures old(inserted) <= inserted && |inserted| <= |old(inserted)| + 1
      ensures |inserted| > |old(inserted)| ==> PageIndexed(web, Settings(), target, page, inserted[|inserted| - 1])
      ensures r.Ok? && ShouldIndex(config, web.dom, page, target) ==> |inserted| == |old(inserted)| + 1
    {
      var length := SaveByteBuffer(web, Settings(), web.pageLength(page), target);
      if length.Fail? {
        return Fail(length.exception);
      }
      r := FollowPageLinks(web, page);
      if r.Fail? {
        return;
      }
      r := FinishPage(web, target, page, length.value);
    }

    /** The rest of downloadWebpages once the page URL `target` is known:
        fetch it at most once and, if it arrives, process it. */
    method DownloadAndProcess(web: Web, target: string) returns (r: Result<()>)
      requires Valid()
      modifies this`linksFollowed, this`fetched, this`downloadedFiles, this`saved, this`inserted,
               linksToFollow, linksToFollow.queue
      ensures Valid() && linksToFollow.queue == old(linksToFollow.queue)
      ensures fetched == old(fetched) ==>
        && r == Ok(()) && linksFollowed == old(linksFollowed) && downloadedFiles == old(downloadedFiles)
        && inserted == old(inserted) && linksToFollow.Contents == old(linksToFollow.Contents)
      ensures fetched != old(fetched) ==>
        && target !in old(linksFollowed)
        && fetched == old(fetched) + [target] && linksFollowed == old(linksFollowed) + {target}
      ensures OnlyWantedAdded(config, linksFollowed, old(linksToFollow.Contents), linksToFollow.Contents)
      ensures old(downloadedFiles) <= downloadedFiles
      ensures old(inserted) <= inserted && |inserted| <= |old(inserted)| + 1
      ensures |inserted| > |old(inserted)| ==>
        && fetched != old(fetched) && web.fetch(target).Some?
        && PageIndexed(web, Settings(), target, web.fetch(target).value, inserted[|inserted| - 1])
    {
      var page := DownloadWebpage(web, target);
      if page.None? {
        return Ok(());
      }
      r := ProcessPage(web, target, page.value);
    }

    /** downloadWebpages: a URL already in linksFollowed changes nothing; a
        local crawl first maps an http URL to its file location; the page is
        then fetched at most once and, if it arrives, processed. */
    method DownloadWebpages(web: Web, url: string) returns (r: Result<()>)
      requires Valid()
      modifies this`linksFollowed, this`fetched, this`downloadedFiles, this`saved, this`inserted,
               linksToFollow, linksToFollow.queue
      ensures Valid() && linksToFollow.queue == old(linksToFollow.queue)
      ensures url in old(linksFollowed) ==> r == Ok(()) && fetched == old(fetched)
      ensures fetched == old(fetched) ==>
        && linksFollowed == old(linksFollowed) && downloadedFiles == old(downloadedFiles)
        && inserted == old(inserted) && linksToFollow.Contents == old(linksToFollow.Contents)
      ensures fetched != old(fetched) ==>
        && url !in old(linksFollowed) && PageTarget(Settings(), url).Ok?
        && PageTarget(Settings(), url).value !in old(linksFollowed)
        && fetched == old(fetched) + [PageTarget(Settings(), url).value]
        && linksFollowed == old(linksFollowed) + {PageTarget(Settings(), url).value}
      ensures OnlyWantedAdded(config, linksFollowed, old(linksToFollow.Contents), linksToFollow.Contents)
      ensures old(downloadedFiles) <= downloadedFiles
      ensures old(inserted) <= inserted && |inserted| <= |old(inserted)| + 1
      ensures |inserted| > |old(inserted)| ==>
        && fetched != old(fetched) && web.fetch(fetched[|fetched| - 1]).Some?
        && PageIndexed(web, Settings(), fetched[|fetched| - 1], web.fetch(fetched[|fetched| - 1]).value,
                       inserted[|inserted| - 1])
    {
      if url in linksFollowed {
        return Ok(());
      }
      var location := PageTarget(Settings(), url);
      if location.Fail? {
        return Fail(location.exception);
      }
      r := DownloadAndProcess(web, location.value);
    }

    /** The end of downloadContentOnly: find the content element, and when
        the rules index the page for its URL, download it and insert the
        record. No content element is a NullPointerException. */
    method IndexContent(web: Web, page: Element) returns (r: Result<()>)
      requires Bookkeeping()
      modifies this`downloadedFiles, this`saved, this`inserted
      ensures Bookkeeping()
      ensures old(downloadedFiles) <= downloadedFiles
      ensures ContentSource(web, config, page) == None ==> r == Fail(NULL_DEREF) && inserted == old(inserted)
      ensures old(inserted) <= inserted && |inserted| <= |old(inserted)| + 1
      ensures |inserted| > |old(inserted)| ==>
        && ContentSource(web, config, page).Some?
        && var src := ContentSource(web, config, page).value;
        var length := FileLength(web, Settings(), src, old(downloadedFiles));
        && ShouldIndex(config, web.dom, page, src) && length.Ok?
        && PageRecord(web, Settings(), src, length.value, page) == Ok(inserted[|inserted| - 1])
      ensures r.Ok? && ContentSource(web, config, page).Some?
              && ShouldIndex(config, web.dom, page, ContentSource(web, config, page).value)
              ==> |inserted| == |old(inserted)| + 1
      ensures r.Ok? && ContentSource(web, config, page).Some?
              && ShouldIndex(config, web.dom, page, ContentSource(web, config, page).value)
              && FileAllowed(config, ContentSource(web, config, page).value)
              ==> ContentSource(web, config, page).value in downloadedFiles
      ensures ContentSource(web, config, page).Some?
              && !ShouldIndex(config, web.dom, page, ContentSource(web, config, page).value)
              ==> r == Ok(()) && downloadedFiles == old(downloadedFiles) && inserted == old(inserted)
    {
      var contents := web.dom.select([page], config.contentType);
      if contents == [] {
        return Fail(NULL_DEREF);
      }
      var content := contents[0];
      var contentSrc := web.dom.absUrl(content, config.contentLoc);
      if ShouldIndex(config, web.dom, page, contentSrc) {
        var length := DownloadFile(web, content, config.contentLoc);
        if length.Fail? {
          return Fail(length.exception);
        }
        r := IndexPage(web, contentSrc, length.value, page);
      } else {
        r := Ok(());
      }
    }

    /** downloadContentOnly: a URL already in linksFollowed changes nothing;
        otherwise the page is fetched at most once, its links are followed,
        and its content element is downloaded and indexed when the rules say
        so. */
    method DownloadContentOnly(web: Web, url: string) returns (r: Result<()>)
      requires Valid()
      modifies this`linksFollowed, this`fetched, this`downloadedFiles, this`saved, this`inserted,
               linksToFollow, linksToFollow.queue
      ensures Valid() && linksToFollow.queue == old(linksToFollow.queue)
      ensures url in old(linksFollowed) ==> r == Ok(()) && fetched == old(fetched)
      ensures fetched == old(fetched) ==>
        && linksFollowed == old(linksFollowed) && downloadedFiles == old(downloadedFiles)
        && inserted == old(inserted) && linksToFollow.Contents == old(linksToFollow.Contents)
      ensures fetched != old(fetched) ==>
        && url !in old(linksFollowed) && fetched == old(fetched) + [url]
        && linksFollowed == old(linksFollowed) + {url}
      ensures OnlyWantedAdded(config, linksFollowed, old(linksToFollow.Contents), linksToFollow.Contents)
      ensures old(downloadedFiles) <= downloadedFiles
      ensures old(inserted) <= inserted && |inserted| <= |old(inserted)| + 1
      ensures |inserted| > |old(inserted)| ==>
        && fetched != old(fetched) && web.fetch(url).Some?
        && var page := web.fetch(url).value;
        && ContentSource(web, config, page).Some?
        && var src := ContentSource(web, config, page).value;
        var length := FileLength(web, Settings(), src, old(downloadedFiles));
        && ShouldIndex(config, web.dom, page, src) && length.Ok?
        && PageRecord(web, Settings(), src, length.value, page) == Ok(inserted[|inserted| - 1])
    {
      if url in linksFollowed {
        return Ok(());
      }
      var page := DownloadWebpage(web, url);
      if page.None? {
        return Ok(());
      }
      r := FollowPageLinks(web, page.value);
      if r.Fail? {
        return;
      }
      r := IndexContent(web, page.value);
    }

    /** One round of run's loop: take the oldest URL from the queue and
        hand it to downloadWebpages or downloadContentOnly. */
    method CrawlStep(web: Web, fullSite: bool) returns (r: Result<()>)
      requires Valid() && linksToFollow.Contents != []
      modifies this`linksFollowed, this`fetched, this`downloadedFiles, this`saved, this`inserted, this`rounds,
               linksToFollow, linksToFollow.queue
      ensures Valid() && linksToFollow.queue == old(linksToFollow.queue)
      ensures rounds == old(rounds) + [Round(old(linksToFollow.Contents)[0], fullSite)]
      ensures old(fetched) <= fetched
      ensures forall k :: |old(fetched)| <= k < |fetched| ==> fetched[k] !in old(linksFollowed)
      ensures old(linksFollowed) <= linksFollowed && old(downloadedFiles) <= downloadedFiles
      ensures old(inserted) <= inserted
    {
      var next := linksToFollow.Dequeue();
      rounds := rounds + [Round(next, fullSite)];
      if fullSite {
        r := DownloadWebpages(web, next);
      } else {
        r := DownloadContentOnly(web, next);
      }
    }

    /** The `while (!linksToFollow.isEmpty())` loop of run, in full-site mode
        (downloadWebpages) or content mode (downloadContentOnly), for at most
        `fuel` rounds; `steps` is the number of rounds run. The first round
        takes the URL at the head of the queue. */
    method Crawl(web: Web, fullSite: bool, fuel: nat) returns (r: Result<()>, steps: nat)
      requires Valid()
      modifies this`linksFollowed, this`fetched, this`downloadedFiles, this`saved, this`inserted, this`rounds,
               linksToFollow, linksToFollow.queue
      ensures Valid() && linksToFollow.queue == old(linksToFollow.queue)
      ensures steps <= fuel
      ensures r.Ok? && steps < fuel ==> linksToFollow.Contents == []
      ensures old(rounds) <= rounds && |rounds| == |old(rounds)| + steps
      ensures forall k :: |old(rounds)| <= k < |rounds| ==> rounds[k].fullSite == fullSite
      ensures fuel > 0 && old(linksToFollow.Contents) != [] ==>
        steps > 0 && rounds[|old(rounds)|] == Round(old(linksToFollow.Contents)[0], fullSite)
      ensures old(fetched) <= fetched
      ensures forall k :: |old(fetched)| <= k < |fetched| ==> fetched[k] !in old(linksFollowed)
      ensures old(linksFollowed) <= linksFollowed && old(downloadedFiles) <= downloadedFiles
      ensures old(inserted) <= inserted
    {
      r, steps := Ok(()), 0;
      while steps < fuel && !linksToFollow.IsEmpty()
        invariant steps <= fuel
        invariant Valid() && linksToFollow.queue == old(linksToFollow.queue)
        invariant old(rounds) <= rounds && |rounds| == |old(rounds)| + steps
        invariant forall k :: |old(rounds)| <= k < |rounds| ==> rounds[k].fullSite == fullSite
        invariant steps == 0 ==> linksToFollow.Contents == old(linksToFollow.Contents)
        invariant steps > 0 ==>
          old(linksToFollow.Contents) != [] && rounds[|old(rounds)|] == Round(old(linksToFollow.Contents)[0], fullSite)
        invariant old(fetched) <= fetched
        invariant forall k :: |old(fetched)| <= k < |fetched| ==> fetched[k] !in old(linksFollowed)
        invariant old(linksFollowed) <= linksFollowed && old(downloadedFiles) <= downloadedFiles
        invariant old(inserted) <= inserted
        decreases fuel - steps
      {
        r := CrawlStep(web, fullSite);
        steps := steps + 1;
        if r.Fail? {
          return;
        }
      }
    }

    /** The start of run: fresh sets and a fresh queue of QUEUE_SIZE slots;
        homeURL is the homepage and workingDir the working directory and
        subdirectory without one trailing '/'. */
    method Reset()
      modifies this
      ensures Valid() && fresh(linksToFollow) && fresh(linksToFollow.queue)
      ensures linksToFollow.queue.Length == QUEUE_SIZE && linksToFollow.Contents == []
      ensures linksFollowed == {} && downloadedFiles == {} && fetched == [] && saved == [] && rounds == []
      ensures homeURL == config.homepage
      ensures workingDir == WithoutTrailingSlash(config.workingDir + config.subdir)
      ensures inserted == old(inserted)
    {
      linksFollowed, downloadedFiles := {}, {};
      fetched, saved, rounds := [], [], [];
      linksToFollow := new Queue(QUEUE_SIZE);
      homeURL := config.homepage;
      workingDir := WithoutTrailingSlash(config.workingDir + config.subdir);
    }

    /** The crawl itself: enqueue the homepage (into the empty queue), for a
        full-site crawl narrow homeURL to its directory, and run the loop. */
    method StartCrawl(web: Web, fullSite: bool, fuel: nat) returns (r: Result<()>)
      requires Valid() && linksToFollow.Contents == [] && linksToFollow.queue.Length > 0
      requires fetched == [] && rounds == []
      modifies this`homeURL, this`linksFollowed, this`fetched, this`downloadedFiles, this`saved, this`inserted,
               this`rounds, linksToFollow, linksToFollow.queue
      ensures Valid() && linksToFollow.queue == old(linksToFollow.queue)
      ensures CrawledFrom(rounds, old(homeURL), Some(fullSite), fuel, r.Ok?, linksToFollow.Contents)
      ensures homeURL == if fullSite then HomeDirectory(old(homeURL)) else old(homeURL)
      ensures forall u :: u in fetched ==> u !in old(linksFollowed)
      ensures old(inserted) <= inserted
    {
      var _ := linksToFollow.Enqueue(homeURL);
      if fullSite {
        homeURL := HomeDirectory(homeURL);
      }
      var steps;
      r, steps := Crawl(web, fullSite, fuel);
      forall u | u in fetched
        ensures u !in old(linksFollowed)
      {
        var k :| 0 <= k < |fetched| && fetched[k] == u;
      }
    }

    /** The saveType dispatch of run: "fullSite" and "content" (in any case)
        crawl; any other save type crawls nothing. */
    method CrawlInMode(web: Web, fuel: nat) returns (r: Result<()>)
      requires Valid() && linksToFollow.Contents == [] && linksToFollow.queue.Length > 0
      requires fetched == [] && rounds == []
      modifies this`homeURL, this`linksFollowed, this`fetched, this`downloadedFiles, this`saved, this`inserted,
               this`rounds, linksToFollow, linksToFollow.queue
      ensures Valid() && linksToFollow.queue == old(linksToFollow.queue) && old(inserted) <= inserted
      ensures CrawledFrom(rounds, old(homeURL), CrawlMode(config), fuel, r.Ok?, linksToFollow.Contents)
      ensures homeURL == if CrawlMode(config) == Some(true) then HomeDirectory(old(homeURL)) else old(homeURL)
      ensures forall u :: u in fetched ==> u !in old(linksFollowed)
      ensures CrawlMode(config).None? ==> r == Ok(()) && fetched == [] && inserted == old(inserted)
    {
      r := Ok(());
      var mode := CrawlMode(config);
      if mode.Some? {
        r := StartCrawl(web, mode.value, fuel);
      }
    }

    /** The reconciliation step of run: unless redownloading or crawling
        local files, enter the files already saved; the pages among them
        are then in linksFollowed. */
    method ReconcileSaved(files: seq<string>) returns (r: Result<()>)
      requires Valid()
      modifies this`downloadedFiles, this`linksFollowed
      ensures Valid() && linksToFollow.Contents == old(linksToFollow.Contents)
      ensures r.Fail? <==> Reconciles(config) && ExistingURLs(Settings(), files).Fail?
      ensures Reconciles(config) && ExistingURLs(Settings(), files).Ok? ==>
        AsFollowed(config, ExistingURLs(Settings(), files).value) <= linksFollowed
    {
      r := Ok(());
      if Reconciles(config) {
        r := RedownloadExistingFiles(files);
      }
    }

    /** run after the reset: reconcile the files already saved unless
        redownloading or crawling local files, then crawl in full-site or
        content mode. No reconciled page is fetched, and none twice. */
    method ReconcileAndCrawl(web: Web, files: seq<string>, fuel: nat) returns (r: Result<()>)
      requires Valid() && linksToFollow.Contents == [] && linksToFollow.queue.Length > 0
      requires fetched == [] && rounds == [] && linksFollowed == {} && homeURL == config.homepage
      modifies this`homeURL, this`linksFollowed, this`fetched, this`downloadedFiles, this`saved, this`inserted,
               this`rounds, linksToFollow, linksToFollow.queue
      ensures Valid() && linksToFollow.queue == old(linksToFollow.queue) && old(inserted) <= inserted
      ensures RunOutcome(config, ExistingURLs(Site(config, config.homepage, workingDir), files), fuel, r.Ok?,
                         fetched, rounds, homeURL, linksToFollow.Contents)
      ensures CrawlMode(config).None? ==> fetched == [] && inserted == old(inserted)
    {
      ghost var site := Settings();
      assert site == Site(config, config.homepage, workingDir);
      r := ReconcileSaved(files);
      assert Settings() == site;
      if r.Fail? {
        return;
      }
      r := CrawlInMode(web, fuel);
    }

    /** run: reset, reconcile, crawl. `files` stands for the directory walk,
        and the loop runs at most `fuel` rounds. */
    method Run(web: Web, files: seq<string>, fuel: nat) returns (r: Result<()>)
      modifies this
      ensures Valid() && fresh(linksToFollow) && fresh(linksToFollow.queue)
      ensures linksToFollow.queue.Length == QUEUE_SIZE
      ensures workingDir == WithoutTrailingSlash(config.workingDir + config.subdir)
      ensures NoDuplicates(fetched) && old(inserted) <= inserted
      ensures RunOutcome(config, ExistingURLs(Site(config, config.homepage, workingDir), files), fuel, r.Ok?,
                         fetched, rounds, homeURL, linksToFollow.Contents)
      ensures CrawlMode(config).None? ==> fetched == [] && inserted == old(inserted)
    {
      Reset();
      r := ReconcileAndCrawl(web, files, fuel);
    }
  }
}
