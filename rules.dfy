/** main/Rules.java: the crawler's rule set. `Config` is the value of all of
    the Java class's static fields; class `Rules` holds that value and its
    methods (init, parseRuleName, parseIndex) update it. The crawl
    predicates, which only read the fields, are functions of a `Config`. */
module RuleEngine {
  import opened Strings
  import opened Html

  /** Rules.Index: one field of the database record, its name and the
      expression that computes its value. */
  datatype Index = Index(attr: string, val: string)

  /** One `attribute: value` line of indexRules.settings, with the name of
      the `~`-delimited group it appears in. */
  datatype Entry = Entry(group: string, attr: string, val: string)

  /** The group whose lines are record fields rather than rules. */
  const INDEX_GROUP := "To Index"

  /** The value of every static field of Rules. */
  datatype Config = Config(
    filesToDownload: set<string>,
    linksToFollow: set<string>,
    pathsToIndex: set<string>,
    pathsToNotIndex: set<string>,
    linksToDisclude: set<string>,
    selectorsToInclude: set<string>,
    selectorsToDisclude: set<string>,
    toIndex: seq<Index>,
    followExternalLinks: bool,
    respectRobots: bool,
    redownloadExistingFiles: bool,
    homepage: string,
    localFile: bool,
    workingDir: string,
    subdir: string,
    database: string,
    collection: string,
    saveType: string,
    contentType: string,
    contentLoc: string,
    websiteURL: Option<string>)

  /** The fields before any rule is read: empty collections, false flags,
      empty text, and no website URL. */
  const DEFAULT := Config({}, {}, {}, {}, {}, {}, {}, [], false, false, false,
                          "", false, "", "", "", "", "", "", "", None)

  /** The attribute names parseRuleName recognises. */
  const RULE_NAMES := {"followExternalLinks", "respectRobots", "redownloadExistingFiles",
    "homepageURL", "saveType", "websiteURL", "contentType", "contentLoc", "workingDir",
    "subdir", "downloadFiles", "linksToFollow", "disallow", "includes", "!includes",
    "url-pattern", "!url-pattern", "database", "collection"}

  // ---------------------------------------------------------------------
  // addProperties

  /** The strings addProperties adds when the previous token was `prev` and
      `buf` is what remains of the property: getToken reads the next
      comma-separated token into the token buffer (which keeps `prev` once
      the property is exhausted), the loop adds it, and it stops as soon as
      the token equals the one before it. */
  function Added(prev: string, buf: string): set<string>
    decreases |buf|
  {
    var (token, rest) := GetToken(buf, ',', prev);
    if token == prev then {token} else {token} + Added(token, rest)
  }

  predicate NoAdjacentRepeat(parts: seq<string>) {
    forall k :: 0 <= k < |parts| - 1 ==> parts[k] != parts[k + 1]
  }

  /** The segments getToken reads from a non-empty property before it is
      exhausted: those of the comma split, except the empty one after a
      final comma. */
  function ReadSegments(buf: string): (parts: seq<string>)
    requires buf != ""
    ensures parts != [] && parts[0] == Split(buf, ',')[0]
  {
    var all := Split(buf, ',');
    if buf[|buf| - 1] == ',' then
      assert |all| >= 2 by { JoinSplit(buf, ','); }
      all[..|all| - 1]
    else all
  }

  /** After the first token of a buffer that holds a comma, the rest still
      has no two equal segments in a row, starts with a segment other than
      that token, and its segments and the token are those of the buffer. */
  lemma SegmentsAfterToken(buf: string)
    requires ',' in buf && NoAdjacentRepeat(Split(buf, ','))
    ensures var (token, rest) := NextToken(buf, ',');
      && NoAdjacentRepeat(Split(rest, ','))
      && Split(rest, ',')[0] != token
      && Split(buf, ',') == [token] + Split(rest, ',')
  {
    var parts := Split(buf, ',');
    var (token, rest) := NextToken(buf, ',');
    NextTokenSplit(buf, ',');
    var tail := Split(rest, ',');
    assert tail == parts[1..];
    forall k | 0 <= k < |tail| - 1 ensures tail[k] != tail[k + 1] {
      assert tail[k] == parts[k + 1] && tail[k + 1] == parts[k + 2];
    }
    assert parts[0] != parts[1];
  }

  /** A comma-holding buffer with more after its first token reads that
      token and then the segments of the rest. */
  lemma ReadSegmentsCons(buf: string)
    requires ',' in buf
    requires NextToken(buf, ',').1 != ""
    ensures ReadSegments(buf) == [NextToken(buf, ',').0] + ReadSegments(NextToken(buf, ',').1)
  {
    var (token, rest) := NextToken(buf, ',');
    var all, tail := Split(buf, ','), Split(rest, ',');
    assert all == [token] + tail by { NextTokenSplit(buf, ','); }
    assert buf[|buf| - 1] == rest[|rest| - 1] by { assert buf == token + [','] + rest; }
    if rest[|rest| - 1] == ',' {
      assert |tail| >= 2 by { JoinSplit(rest, ','); }
      assert ReadSegments(buf) == all[..|all| - 1];
      assert ReadSegments(rest) == tail[..|tail| - 1];
      assert all[..|all| - 1] == [token] + tail[..|tail| - 1];
    } else {
      assert ReadSegments(buf) == all && ReadSegments(rest) == tail;
    }
  }

  /** From a token other than the first segment, and without two equal
      segments in a row, the loop adds exactly the segments getToken reads
      before the property is exhausted; once it is, the token stays as it was
      and the loop stops. */
  lemma {:induction false} AddedSegments(prev: string, buf: string)
    requires buf != ""
    requires NoAdjacentRepeat(Split(buf, ',')) && Split(buf, ',')[0] != prev
    ensures Added(prev, buf) == set p | p in ReadSegments(buf)
    decreases |buf|
  {
    var (token, rest) := NextToken(buf, ',');
    assert token != prev by { NextTokenSplit(buf, ','); }
    assert Added(prev, buf) == {token} + Added(token, rest);
    if rest == "" {
      assert Added(token, rest) == {token};
      LastSegment(buf);
    } else {
      SegmentsAfterToken(buf);
      AddedSegments(token, rest);
      ReadSegmentsCons(buf);
      var segs := ReadSegments(buf);
      ElementsOfCons(segs);
      assert segs[0] == token && segs[1..] == ReadSegments(rest);
    }
  }

  /** A buffer whose first token leaves nothing to read has that token as
      its only read segment. */
  lemma LastSegment(buf: string)
    requires buf != "" && NextToken(buf, ',').1 == ""
    ensures ReadSegments(buf) == [NextToken(buf, ',').0]
  {
    var (token, rest) := NextToken(buf, ',');
    NextTokenSplit(buf, ',');
    if ',' in buf {
      assert buf == token + [','];
      assert Split(buf, ',') == [token, ""];
    }
  }

  /** The elements of a non-empty sequence are its head and those of its tail. */
  lemma ElementsOfCons(parts: seq<string>)
    requires parts != []
    ensures (set p | p in parts) == {parts[0]} + (set p | p in parts[1..])
  {
    assert parts == [parts[0]] + parts[1..];
  }

  /** addProperties on a property whose segments have no two equal ones in
      a row: every segment is added except an empty one after a final comma;
      a property that is empty or starts with a comma adds only the empty
      string. */
  lemma AddedAllSegments(property: string)
    requires NoAdjacentRepeat(Split(property, ','))
    ensures Added("", property) ==
      if Split(property, ',')[0] == "" then {""} else set p | p in ReadSegments(property)
  {
    NextTokenSplit(property, ',');
    if Split(property, ',')[0] != "" {
      AddedSegments("", property);
    }
  }

  /** Two settings values that list distinct items: "a,b" adds both, and
      a trailing comma adds nothing more. */
  lemma AddedListExamples()
    ensures Added("", "a,b") == {"a", "b"}
    ensures Added("", "a,b,") == {"a", "b"}
  {
    NextTokenSplits("a", ',', "b");
    assert "a" + [','] + "b" == "a,b";
    NextTokenSplits("a", ',', "b,");
    assert "a" + [','] + "b," == "a,b,";
    NextTokenSplits("b", ',', "");
    assert "b" + [','] + "" == "b,";
    assert NextToken("b", ',') == ("b", "");
    assert Added("a", "b") == {"b"} + Added("b", "");
    assert Added("a", "b,") == {"b"} + Added("b", "");
  }

  /** Three settings values on which the loop stops early: "a,a,b" at the
      repeated "a", and a property that is empty or starts with a comma at
      its first, empty, token. */
  lemma AddedStopExamples()
    ensures Added("", "a,a,b") == {"a"}
    ensures Added("", "") == {""}
    ensures Added("", ",a") == {""}
  {
    NextTokenSplits("a", ',', "a,b");
    assert "a" + [','] + "a,b" == "a,a,b";
    NextTokenSplits("", ',', "a");
    assert "" + [','] + "a" == ",a";
  }

  /** addProperties(set, property): the do-while loop, with `buf` the
      unread rest of the property and `token` the reused token buffer. */
  method AddProperties(s: set<string>, property: string) returns (r: set<string>)
    ensures r == s + Added("", property)
  {
    var buf, token, last := property, "", "";
    last := token;
    token, buf := GetToken(buf, ',', token).0, GetToken(buf, ',', token).1;
    r := s + {token};
    while last != token
      invariant r + (if last == token then {} else Added(token, buf)) == s + Added("", property)
      decreases |buf|, if last != token then 1 else 0
    {
      last := token;
      token, buf := GetToken(buf, ',', token).0, GetToken(buf, ',', token).1;
      r := r + {token};
    }
  }

  // ---------------------------------------------------------------------
  // parseRuleName, parseIndex, init

  /** The attribute names parseRuleName's switch recognises. */
  datatype RuleName =
    | FollowExternalLinks | RespectRobots | RedownloadExistingFiles | HomepageURL | SaveType
    | WebsiteURL | ContentType | ContentLoc | WorkingDir | Subdir | DownloadFiles | LinksToFollow
    | Disallow | Includes | NotIncludes | UrlPattern | NotUrlPattern | Database | Collection

  /** The switch label `attribute` matches, if any. */
  function RuleOf(attribute: string): (r: Option<RuleName>)
    ensures r == None <==> attribute !in RULE_NAMES
  {
    match attribute
    case "followExternalLinks" => Some(FollowExternalLinks)
    case "respectRobots" => Some(RespectRobots)
    case "redownloadExistingFiles" => Some(RedownloadExistingFiles)
    case "homepageURL" => Some(HomepageURL)
    case "saveType" => Some(SaveType)
    case "websiteURL" => Some(WebsiteURL)
    case "contentType" => Some(ContentType)
    case "contentLoc" => Some(ContentLoc)
    case "workingDir" => Some(WorkingDir)
    case "subdir" => Some(Subdir)
    case "downloadFiles" => Some(DownloadFiles)
    case "linksToFollow" => Some(LinksToFollow)
    case "disallow" => Some(Disallow)
    case "includes" => Some(Includes)
    case "!includes" => Some(NotIncludes)
    case "url-pattern" => Some(UrlPattern)
    case "!url-pattern" => Some(NotUrlPattern)
    case "database" => Some(Database)
    case "collection" => Some(Collection)
    case _ => None
  }

  /** The field update of the switch case `rule` with value `property`. As in
      the source, the WebsiteURL case writes saveType, so websiteURL is never
      set. */
  function ApplyRuleName(c: Config, rule: RuleName, property: string): (r: Config)
    ensures r.websiteURL == c.websiteURL && r.toIndex == c.toIndex
    ensures c.filesToDownload <= r.filesToDownload && c.linksToFollow <= r.linksToFollow
    ensures c.pathsToIndex <= r.pathsToIndex && c.pathsToNotIndex <= r.pathsToNotIndex
    ensures c.linksToDisclude <= r.linksToDisclude
    ensures c.selectorsToInclude <= r.selectorsToInclude && c.selectorsToDisclude <= r.selectorsToDisclude
    ensures rule == WebsiteURL ==> r == c.(saveType := property)
    ensures rule == HomepageURL ==> r.homepage == property && (r.localFile <==> !Contains(property, "http"))
    ensures rule != HomepageURL ==> r.homepage == c.homepage && r.localFile == c.localFile
  {
    match rule
    case FollowExternalLinks => c.(followExternalLinks := property == "true")
    case RespectRobots => c.(respectRobots := property == "true")
    case RedownloadExistingFiles => c.(redownloadExistingFiles := property == "true")
    case HomepageURL => c.(homepage := property, localFile := !Contains(property, "http"))
    case SaveType => c.(saveType := property)
    case WebsiteURL => c.(saveType := property)
    case ContentType => c.(contentType := property)
    case ContentLoc => c.(contentLoc := property)
    case WorkingDir => c.(workingDir := property)
    case Subdir => c.(subdir := property)
    case DownloadFiles => c.(filesToDownload := c.filesToDownload + Added("", property))
    case LinksToFollow => c.(linksToFollow := c.linksToFollow + Added("", property))
    case Disallow => c.(linksToDisclude := c.linksToDisclude + {property})
    case Includes => c.(selectorsToInclude := c.selectorsToInclude + {property})
    case NotIncludes => c.(selectorsToDisclude := c.selectorsToDisclude + {property})
    case UrlPattern => c.(pathsToIndex := c.pathsToIndex + {property})
    case NotUrlPattern => c.(pathsToNotIndex := c.pathsToNotIndex + {property})
    case Database => c.(database := property)
    case Collection => c.(collection := property)
  }

  /** The field update parseRuleName(attribute, property) makes: that of the
      matching switch case, and none for an unknown attribute. */
  function ApplyRule(c: Config, attribute: string, property: string): (r: Config)
    ensures r.websiteURL == c.websiteURL && r.toIndex == c.toIndex
    ensures attribute !in RULE_NAMES ==> r == c
    ensures attribute == "websiteURL" ==> r == c.(saveType := property)
    ensures attribute == "homepageURL" ==> r.homepage == property && (r.localFile <==> !Contains(property, "http"))
  {
    match RuleOf(attribute)
    case None => c
    case Some(rule) => ApplyRuleName(c, rule, property)
  }

  /** What init does with one settings line: a line with an empty attribute
      or value is skipped; a line of the "To Index" group becomes a record
      field; any other line is a rule. */
  function Step(c: Config, e: Entry): Config {
    if |e.attr| == 0 || |e.val| == 0 then c
    else if e.group == INDEX_GROUP then c.(toIndex := c.toIndex + [Index(e.attr, e.val)])
    else ApplyRule(c, e.attr, e.val)
  }

  /** The fields after reading the settings lines `es` in order, from `c`. */
  function Load(c: Config, es: seq<Entry>): Config
    decreases |es|
  {
    if es == [] then c else Step(Load(c, es[..|es| - 1]), es[|es| - 1])
  }

  /** What init resets before reading: the collections; the scalar fields
      keep their values. */
  function Reset(c: Config): Config {
    c.(filesToDownload := {}, linksToFollow := {}, pathsToIndex := {}, pathsToNotIndex := {},
       selectorsToInclude := {}, selectorsToDisclude := {}, linksToDisclude := {}, toIndex := [])
  }

  /** The record fields the lines `es` declare, in order. */
  function IndexFields(es: seq<Entry>): seq<Index>
    decreases |es|
  {
    if es == [] then []
    else
      var e := es[|es| - 1];
      IndexFields(es[..|es| - 1])
        + if |e.attr| != 0 && |e.val| != 0 && e.group == INDEX_GROUP then [Index(e.attr, e.val)] else []
  }

  /** Reading the settings appends exactly the "To Index" lines with a
      non-empty attribute and value to toIndex, in file order, and never sets
      websiteURL. */
  lemma {:induction false} LoadFields(c: Config, es: seq<Entry>)
    ensures Load(c, es).toIndex == c.toIndex + IndexFields(es)
    ensures Load(c, es).websiteURL == c.websiteURL
    decreases |es|
  {
    if es != [] {
      var init := es[..|es| - 1];
      var e := es[|es| - 1];
      LoadFields(c, init);
      var tail := if |e.attr| != 0 && |e.val| != 0 && e.group == INDEX_GROUP then [Index(e.attr, e.val)] else [];
      assert IndexFields(es) == IndexFields(init) + tail;
      assert Load(c, es).toIndex == Load(c, init).toIndex + tail;
      assert c.toIndex + IndexFields(es) == (c.toIndex + IndexFields(init)) + tail;
    }
  }

  /** Whatever the settings say, websiteURL stays absent after init. */
  lemma WebsiteURLNeverSet(c: Config, es: seq<Entry>)
    requires c.websiteURL == None
    ensures Load(Reset(c), es).websiteURL == None
  {
    LoadFields(Reset(c), es);
  }

  /** The static state of Rules: `config` holds the value of every static
      field, and each method reassigns the fields it sets. */
  class Rules {
    var config: Config

    constructor ()
      ensures config == DEFAULT
    {
      config := DEFAULT;
    }

    /** parseIndex: record one more field. */
    method ParseIndex(attribute: string, property: string)
      modifies this
      ensures config == old(config).(toIndex := old(config.toIndex) + [Index(attribute, property)])
    {
      config := config.(toIndex := config.toIndex + [Index(attribute, property)]);
    }

    /** parseRuleName: the switch over the attribute name; an unknown name
        changes nothing. */
    method ParseRuleName(attribute: string, property: string)
      modifies this
      ensures config == ApplyRule(old(config), attribute, property)
    {
      match RuleOf(attribute)
      case None =>
      case Some(rule) =>
        match rule
        case FollowExternalLinks => config := config.(followExternalLinks := property == "true");
        case RespectRobots => config := config.(respectRobots := property == "true");
        case RedownloadExistingFiles => config := config.(redownloadExistingFiles := property == "true");
        case HomepageURL =>
          config := config.(homepage := property);
          config := config.(localFile := !Contains(config.homepage, "http"));
        case SaveType => config := config.(saveType := property);
        case WebsiteURL => config := config.(saveType := property);
        case ContentType => config := config.(contentType := property);
        case ContentLoc => config := config.(contentLoc := property);
        case WorkingDir => config := config.(workingDir := property);
        case Subdir => config := config.(subdir := property);
        case DownloadFiles =>
          var files := AddProperties(config.filesToDownload, property);
          config := config.(filesToDownload := files);
        case LinksToFollow =>
          var links := AddProperties(config.linksToFollow, property);
          config := config.(linksToFollow := links);
        case Disallow => config := config.(linksToDisclude := config.linksToDisclude + {property});
        case Includes => config := config.(selectorsToInclude := config.selectorsToInclude + {property});
        case NotIncludes => config := config.(selectorsToDisclude := config.selectorsToDisclude + {property});
        case UrlPattern => config := config.(pathsToIndex := config.pathsToIndex + {property});
        case NotUrlPattern => config := config.(pathsToNotIndex := config.pathsToNotIndex + {property});
        case Database => config := config.(database := property);
        case Collection => config := config.(collection := property);
    }

    /** init, fed with the settings lines already split into (group,
        attribute, value): the collections start empty and each line is
        applied in turn. */
    method Init(entries: seq<Entry>)
      modifies this
      ensures config == Load(Reset(old(config)), entries)
    {
      config := Reset(config);
      ghost var start := config;
      for i := 0 to |entries|
        invariant config == Load(start, entries[..i])
      {
        assert entries[..i + 1][..i] == entries[..i];
        var e := entries[i];
        if |e.attr| != 0 && |e.val| != 0 {
          if e.group == INDEX_GROUP {
            ParseIndex(e.attr, e.val);
          } else {
            ParseRuleName(e.attr, e.val);
          }
        }
      }
      assert entries[..|entries|] == entries;
    }
  }

  // ---------------------------------------------------------------------
  // Crawl predicates

  /** setContainsAbsURL: some entry of `s` occurs in `absURL`. */
  predicate SetContainsAbsURL(s: set<string>, absURL: string) {
    exists path :: path in s && Contains(absURL, path)
  }

  /** setNotContainsAbsURL: no entry of `s` occurs in `absURL`. */
  predicate SetNotContainsAbsURL(s: set<string>, absURL: string) {
    forall path :: path in s ==> !Contains(absURL, path)
  }

  /** The two set scans are each other's negation. */
  lemma SetNotContainsIsNegation(s: set<string>, absURL: string)
    ensures SetNotContainsAbsURL(s, absURL) == !SetContainsAbsURL(s, absURL)
  {
  }

  /** The iterator loop of setContainsAbsURL, returning at the first hit. */
  method ScanSetContainsAbsURL(s: set<string>, absURL: string) returns (r: bool)
    ensures r == SetContainsAbsURL(s, absURL)
  {
    var remaining := s;
    while remaining != {}
      invariant remaining <= s
      invariant forall path :: path in s - remaining ==> !Contains(absURL, path)
      decreases |remaining|
    {
      var path :| path in remaining;
      if Contains(absURL, path) {
        return true;
      }
      remaining := remaining - {path};
    }
    return false;
  }

  /** The iterator loop of setNotContainsAbsURL, returning at the first hit. */
  method ScanSetNotContainsAbsURL(s: set<string>, absURL: string) returns (r: bool)
    ensures r == SetNotContainsAbsURL(s, absURL)
  {
    var remaining := s;
    while remaining != {}
      invariant remaining <= s
      invariant forall path :: path in s - remaining ==> !Contains(absURL, path)
      decreases |remaining|
    {
      var path :| path in remaining;
      if Contains(absURL, path) {
        return false;
      }
      remaining := remaining - {path};
    }
    return true;
  }

  /** docHasSelector: every selector of `s` matches something in the page. */
  predicate DocHasSelector(dom: Dom, s: set<string>, page: Element) {
    forall selector :: selector in s ==> |dom.select([page], selector)| > 0
  }

  /** docNotHasSelector: no selector of `s` matches anything in the page. */
  predicate DocNotHasSelector(dom: Dom, s: set<string>, page: Element) {
    forall selector :: selector in s ==> |dom.select([page], selector)| == 0
  }

  /** The iterator loop of docHasSelector, returning at the first selector without a match. */
  method ScanDocHasSelector(dom: Dom, s: set<string>, page: Element) returns (r: bool)
    ensures r == DocHasSelector(dom, s, page)
  {
    var remaining := s;
    while remaining != {}
      invariant remaining <= s
      invariant forall selector :: selector in s - remaining ==> |dom.select([page], selector)| > 0
      decreases |remaining|
    {
      var selector :| selector in remaining;
      if |dom.select([page], selector)| == 0 {
        return false;
      }
      remaining := remaining - {selector};
    }
    return true;
  }

  /** The iterator loop of docNotHasSelector, returning at the first selector with a match. */
  method ScanDocNotHasSelector(dom: Dom, s: set<string>, page: Element) returns (r: bool)
    ensures r == DocNotHasSelector(dom, s, page)
  {
    var remaining := s;
    while remaining != {}
      invariant remaining <= s
      invariant forall selector :: selector in s - remaining ==> |dom.select([page], selector)| == 0
      decreases |remaining|
    {
      var selector :| selector in remaining;
      if |dom.select([page], selector)| > 0 {
        return false;
      }
      remaining := remaining - {selector};
    }
    return true;
  }

  /** shouldDownload: the lower-cased file type is on the download list. */
  predicate ShouldDownload(c: Config, fileType: string) {
    ToLower(fileType) in c.filesToDownload
  }

  /** shouldDownload does not depend on the case of the file type. */
  lemma ShouldDownloadIgnoresCase(c: Config, fileType: string, other: string)
    requires EqualsIgnoreCase(fileType, other)
    ensures ShouldDownload(c, fileType) == ShouldDownload(c, other)
    ensures ShouldDownload(c, fileType) == ShouldDownload(c, ToLower(fileType))
  {
    ToLowerIdempotent(fileType);
  }

  /** A file type is downloaded exactly when the download list holds it
      up to case as an entry written in lower case: an entry with an
      upper-case letter never matches. */
  lemma ShouldDownloadMatchesLowerEntry(c: Config, fileType: string)
    ensures ShouldDownload(c, fileType) <==>
      exists t :: t in c.filesToDownload && ToLower(t) == t && EqualsIgnoreCase(t, fileType)
  {
    ToLowerIdempotent(fileType);
  }

  /** shouldFollow(absURL): no disallowed path occurs in the URL and, unless
      external links are followed, the URL contains the homepage. */
  predicate ShouldFollow(c: Config, absURL: string)
    ensures (exists path :: path in c.linksToDisclude && Contains(absURL, path)) ==> !ShouldFollow(c, absURL)
    ensures ShouldFollow(c, absURL) && !c.followExternalLinks ==> Contains(absURL, c.homepage)
    ensures !ShouldFollow(c, absURL) ==>
      SetContainsAbsURL(c.linksToDisclude, absURL) || (!c.followExternalLinks && !Contains(absURL, c.homepage))
  {
    if c.followExternalLinks then SetNotContainsAbsURL(c.linksToDisclude, absURL)
    else SetNotContainsAbsURL(c.linksToDisclude, absURL) && Contains(absURL, c.homepage)
  }

  /** shouldFollow(absURL, fileType): the one-argument test, and the
      lower-cased file type on the follow list. */
  predicate ShouldFollowType(c: Config, absURL: string, fileType: string)
    ensures ShouldFollowType(c, absURL, fileType)
        == (ShouldFollow(c, absURL) && ToLower(fileType) in c.linksToFollow)
  {
    if c.followExternalLinks then
      SetNotContainsAbsURL(c.linksToDisclude, absURL) && ToLower(fileType) in c.linksToFollow
    else
      SetNotContainsAbsURL(c.linksToDisclude, absURL) && Contains(absURL, c.homepage)
        && ToLower(fileType) in c.linksToFollow
  }

  /** shouldIndex: every include selector matches, no exclude selector
      matches, and no not-to-index path occurs in the URL. */
  predicate ShouldIndex(c: Config, dom: Dom, page: Element, absURL: string)
    ensures ShouldIndex(c, dom, page, absURL) <==>
      && (forall sel :: sel in c.selectorsToInclude ==> |dom.select([page], sel)| > 0)
      && (forall sel :: sel in c.selectorsToDisclude ==> dom.select([page], sel) == [])
      && !SetContainsAbsURL(c.pathsToNotIndex, absURL)
  {
    DocHasSelector(dom, c.selectorsToInclude, page)
      && DocNotHasSelector(dom, c.selectorsToDisclude, page)
      && SetNotContainsAbsURL(c.pathsToNotIndex, absURL)
  }

  /** The url-pattern rules (pathsToIndex) play no part in shouldIndex. */
  lemma ShouldIndexIgnoresPathsToIndex(c: Config, patterns: set<string>, dom: Dom, page: Element, absURL: string)
    ensures ShouldIndex(c, dom, page, absURL) == ShouldIndex(c.(pathsToIndex := patterns), dom, page, absURL)
  {
  }

  /** Rules.withoutHomeURL: the part of `url` after the first occurrence of
      the homepage, or `url` itself when the homepage does not occur. */
  function WithoutHomeURL(c: Config, url: string): (r: string)
    ensures !Contains(url, c.homepage) ==> r == url
    ensures Contains(url, c.homepage) ==>
      && url == url[..IndexOf(url, c.homepage)] + c.homepage + r
      && forall j :: 0 <= j < IndexOf(url, c.homepage) ==> !IsAt(url, c.homepage, j)
  {
    var index := IndexOf(url, c.homepage);
    if index == -1 then url
    else
      assert url[index..index + |c.homepage|] == c.homepage;
      assert url == url[..index] + url[index..index + |c.homepage|] + url[index + |c.homepage|..];
      url[index + |c.homepage|..]
  }
}
