/** The four routes the bot registers on its global router, in registration
    order: `ping`, `image`, `url_title`, `reaction`.

    The patterns of `ping`, `image` and `reaction` are small enough to give
    their `re.search` result exactly (anchors, `$` before a final newline, `.`
    stopping at a newline, `\s+` giving characters back to `.+`, and the case
    fold of `re.IGNORECASE`). The URL pattern of `url_title` stays an opaque
    parameter of the environment. */
module Routes {
  import opened Base
  import opened Text
  import opened Router

  const PingPattern: string := "^(?P<route>!ping)$"
  const ImagePattern: string := "(?P<route>^http[s]?://.*(?:jpg|jpeg|png|gif)$)"
  const UrlPattern: string :=
    "(?i)(?P<route>\\b((?:https?://|www\\d{0,3}[.]"
    + "|[a-z0-9.\\-]+[.][a-z]{2,4}/)(?:[^\\s()<>]+|"
    + "\\(([^\\s()<>]+|(\\([^\\s()<>]+\\)))*\\))+"
    + "(?:\\(([^\\s()<>]+|(\\([^\\s()<>]+\\)))*\\)"
    + "|[^\\s`!()\\[\\]{};:\\\'\\\".,<>?"
    + "\\xab\\xbb\\u201c\\u201d\\u2018\\u2019])))"
    + "\\s?(?P<msg>.*)?"
  const ReactionPattern: string := "^(?P<route>!reaction)\\s+(?P<msg>.+)"

  /** The keys of the bot's routing table: its four regular expressions. */
  datatype Pattern = PingRe | ImageRe | UrlRe | ReactionRe

  /** The text of each regular expression. */
  function Regex(p: Pattern): string {
    match p
    case PingRe => PingPattern
    case ImageRe => ImagePattern
    case UrlRe => UrlPattern
    case ReactionRe => ReactionPattern
  }

  /** The four regular expressions are different strings, so keying the
      table by `Pattern` keys it by the pattern text. */
  lemma RegexInjective(p: Pattern, q: Pattern)
    requires Regex(p) == Regex(q)
    ensures p == q
  {
    assert PingPattern[|PingPattern| - 1] == '$';
    assert ImagePattern[|ImagePattern| - 1] == ')' && ImagePattern[|ImagePattern| - 2] == '$';
    assert UrlPattern[|UrlPattern| - 1] == '?';
    assert ReactionPattern[|ReactionPattern| - 1] == ')' && ReactionPattern[|ReactionPattern| - 2] == '+';
  }

  /** The canned answers of `ping`. */
  const OneLiners: seq<string> := [
    "Good morning, thats a nice TNETENNBA",
    "Ow. Four! I mean, five! I mean, fire!",
    "Did you see that ludicrous display last night?"
  ]

  /** The index `random.choice` picks among the one-liners. */
  type LinerIndex = i: nat | i < 3

  /** What fetching a page for `url_title` gives: the request or the parse
      raised (caught by the handler), the page has no `<title>` element
      (`soup.title` is `None`, so reading `.string` raises), or a title whose
      `.string` may itself be `None`. */
  datatype TitleFetch = FetchFailed | NoTitle | Title(text: Option<string>)

  /** The world outside the router: the URL regex, the web, and the random
      choice of `ping`. */
  datatype Env = Env(urlSearch: string -> Option<Groups>,
                     fetchTitle: string -> TitleFetch,
                     pingPick: LinerIndex)

  /** The handler functions the bot registers. */
  datatype Builtin = Ping | Image | UrlTitle | Reaction

  // ---------------------------------------------------------------------
  // The three concrete patterns

  /** `re.search(PingPattern, text, re.IGNORECASE)`: `^` and `$` hold the
      whole text, except that `$` also matches before one final newline. */
  function PingSearch(text: string): (r: Option<Groups>)
    ensures r.Some? <==> FoldEq(BeforeFinalNewline(text), "!ping")
    ensures r.Some? ==> |text| >= 5 && r.value == Groups(Some(text[..5]), None)
  {
    if FoldPrefix(text, "!ping") && (|text| == 5 || (|text| == 6 && text[5] == '\n'))
    then Some(Groups(Some(text[..5]), None))
    else None
  }

  /** `text` without one final newline: the part a `$` anchor may close. */
  function BeforeFinalNewline(text: string): (core: string)
    ensures text == core || text == core + "\n"
    ensures |text| > 0 && text[|text| - 1] == '\n' ==> text == core + "\n"
    ensures !(|text| > 0 && text[|text| - 1] == '\n') ==> core == text
  {
    if |text| > 0 && text[|text| - 1] == '\n' then text[..|text| - 1] else text
  }

  /** `core` starts with the scheme `p` and ends with the extension `e`, in
      either case, the two not overlapping. */
  predicate SchemeAndExtension(core: string, p: string, e: string) {
    |p| + |e| <= |core| && FoldPrefix(core, p) && FoldSuffix(core, e)
  }

  /** `core` is the scheme `p`, then anything, then one of the endings
      `(?:jpg|jpeg|png|gif)`. */
  predicate ImageLink(core: string, p: string) {
    || SchemeAndExtension(core, p, "jpg")
    || SchemeAndExtension(core, p, "jpeg")
    || SchemeAndExtension(core, p, "png")
    || SchemeAndExtension(core, p, "gif")
  }

  /** `core` is an image link under either scheme `http[s]?://` allows. */
  predicate ImageShaped(core: string) {
    ImageLink(core, "http://") || ImageLink(core, "https://")
  }

  /** `re.search(ImagePattern, text, re.IGNORECASE)`: the route group is the
      whole text up to a final newline, and `.*` cannot cross a newline. */
  function ImageSearch(text: string): (r: Option<Groups>)
    ensures r.Some? ==> r.value.route.Some? && r.value.msg.None?
    ensures r.Some? ==> '\n' !in r.value.route.value && ImageShaped(r.value.route.value)
    ensures r.Some? ==> text == r.value.route.value || text == r.value.route.value + "\n"
    ensures '\n' !in text ==> (r.Some? <==> ImageShaped(text))
    ensures |text| > 0 && text[|text| - 1] == '\n' && '\n' !in text[..|text| - 1]
            && ImageShaped(text[..|text| - 1]) ==>
              r == Some(Groups(Some(text[..|text| - 1]), None))
  {
    var core := BeforeFinalNewline(text);
    if '\n' !in core && ImageShaped(core) then Some(Groups(Some(core), None)) else None
  }

  /** The largest index `k` with `lo <= k < hi` and `s[k]` not a newline. */
  function LastNonNewline(s: string, lo: nat, hi: nat): (r: Option<nat>)
    requires lo <= hi <= |s|
    ensures r.Some? ==> lo <= r.value < hi && s[r.value] != '\n'
    ensures r.Some? ==> forall k :: r.value < k < hi ==> s[k] == '\n'
    ensures r.None? ==> forall k :: lo <= k < hi ==> s[k] == '\n'
    decreases hi - lo
  {
    if hi == lo then None
    else if s[hi - 1] != '\n' then Some(hi - 1)
    else LastNonNewline(s, lo, hi - 1)
  }

  /** One way for `!reaction\s+(.+)` to match `text`: the `\s+` covers
      `[9, a)` and the `.+` covers `[a, b)`. */
  predicate ReactionSplit(text: string, a: int, b: int) {
    && FoldPrefix(text, "!reaction")
    && 10 <= a < b <= |text|
    && (forall i :: 9 <= i < a ==> IsSpace(text[i]))
    && (forall i :: a <= i < b ==> text[i] != '\n')
  }

  /** `re.search(ReactionPattern, text, re.IGNORECASE)`. The greedy `\s+`
      takes the whole run of white space; if nothing is left after it, it
      gives back characters until `.+` finds one that is not a newline. */
  function ReactionSearch(text: string): (r: Option<Groups>)
    ensures r.Some? <==> exists a, b :: ReactionSplit(text, a, b)
    ensures r.Some? ==> r.value.route == Some(text[..9])
    ensures r.Some? ==>
      exists a, b :: ReactionSplit(text, a, b) && r.value.msg == Some(text[a..b])
                     && (b == |text| || text[b] == '\n')
                     && forall a', b' :: ReactionSplit(text, a', b') ==> a' <= a
  {
    if !FoldPrefix(text, "!reaction") then None
    else
      var j := 9 + SpaceRun(text, 9);
      if j == 9 then
        NoSplitWithoutSpace(text);
        None
      else if j < |text| then
        var e := LineEnd(text, j);
        assert ReactionSplit(text, j, e);
        SplitStopsAtRun(text, j);
        Some(Groups(Some(text[..9]), Some(text[j..e])))
      else
        match LastNonNewline(text, 10, j)
        case None =>
          NoSplitInNewlines(text, j);
          None
        case Some(k) =>
          assert ReactionSplit(text, k, k + 1);
          SplitLastNonNewline(text, k);
          Some(Groups(Some(text[..9]), Some(text[k..k + 1])))
  }

  lemma NoSplitWithoutSpace(text: string)
    requires FoldPrefix(text, "!reaction") && SpaceRun(text, 9) == 0
    ensures forall a, b :: !ReactionSplit(text, a, b)
  {
  }

  lemma SplitStopsAtRun(text: string, j: nat)
    requires FoldPrefix(text, "!reaction") && j == 9 + SpaceRun(text, 9) < |text|
    ensures forall a, b :: ReactionSplit(text, a, b) ==> a <= j
  {
  }

  lemma NoSplitInNewlines(text: string, j: nat)
    requires 10 <= j == |text|
    requires LastNonNewline(text, 10, j).None?
    ensures forall a, b :: !ReactionSplit(text, a, b)
  {
    forall a, b ensures !ReactionSplit(text, a, b) {
      if 10 <= a < b <= |text| {
        assert text[a] == '\n';
      }
    }
  }

  lemma SplitLastNonNewline(text: string, k: nat)
    requires 10 <= |text|
    requires LastNonNewline(text, 10, |text|) == Some(k)
    ensures forall a, b :: ReactionSplit(text, a, b) ==> a <= k
  {
    forall a, b | 10 <= a < b <= |text| && k < a ensures !ReactionSplit(text, a, b) {
      assert text[a] == '\n';
    }
  }

  /** Every image link starts with an `h` (in either case). */
  lemma ImageShapedStartsWithH(core: string)
    requires ImageShaped(core)
    ensures |core| > 0 && Fold(core[0]) == 'h'
  {
    var p := if ImageLink(core, "http://") then "http://" else "https://";
    assert FoldPrefix(core, p);
    assert core[..|p|][0] == core[0];
  }

  // ---------------------------------------------------------------------
  // The table, the engine restricted to it, and the handlers

  /** The search function of `MossBot.serve` for the four built-in patterns. */
  function SearchIn(env: Env, pattern: Pattern, text: string): Option<Groups> {
    match pattern
    case PingRe => PingSearch(text)
    case ImageRe => ImageSearch(text)
    case UrlRe => env.urlSearch(text)
    case ReactionRe => ReactionSearch(text)
  }

  /** `url_title`: fetch the page, and link the URL with its title. A failed
      fetch is answered with `skip`; a page without a title raises. */
  function UrlTitleReply(env: Env, route: Option<string>): (r: Exec<MsgReturn>)
    ensures route.None? ==> r == Returns(MsgReturn("skip", None))
    ensures route.Some? && env.fetchTitle(route.value) == FetchFailed ==>
              r == Returns(MsgReturn("skip", None))
    ensures r.Raises? <==> route.Some? && env.fetchTitle(route.value) == NoTitle
    ensures route.Some? && env.fetchTitle(route.value).Title? ==>
              r == Returns(MsgReturn("html", Some(Anchor(route.value, PyStr(env.fetchTitle(route.value).text)))))
  {
    match route
    case None => Returns(MsgReturn("skip", None))
    case Some(url) =>
      match env.fetchTitle(url)
      case FetchFailed => Returns(MsgReturn("skip", None))
      case NoTitle => Raises
      case Title(t) => Returns(MsgReturn("html", Some(Anchor(url, PyStr(t)))))
  }

  /** `<a href="{route}">{title}</a>`. */
  function Anchor(href: string, title: string): (html: string)
    ensures |html| == |href| + |title| + 15
    ensures html[..9] == "<a href=\"" && html[9..9 + |href|] == href
    ensures html[9 + |href|..11 + |href|] == "\">"
    ensures html[11 + |href|..11 + |href| + |title|] == title
    ensures html[|html| - 4..] == "</a>"
  {
    "<a href=\"" + href + "\">" + title + "</a>"
  }

  /** Calling one of the built-in handlers with the groups of its match. */
  function Invoke(env: Env, h: Builtin, route: Option<string>, msg: Option<string>): (r: Exec<MsgReturn>)
    ensures h == Ping ==>
              r.Returns? && r.value.kind == "notice" && r.value.data.Some? && r.value.data.value in OneLiners
    ensures h == Image ==> r.Returns? && r.value.kind == "image" && r.value.data == route
    ensures h == Reaction ==> r.Returns? && r.value.kind == "reaction" && r.value.data == msg
    ensures r.Raises? <==> h == UrlTitle && route.Some? && env.fetchTitle(route.value) == NoTitle
  {
    match h
    case Ping => Returns(MsgReturn("notice", Some(OneLiners[env.pingPick])))
    case Image => Returns(MsgReturn("image", route))
    case UrlTitle => UrlTitleReply(env, route)
    case Reaction => Returns(MsgReturn("reaction", msg))
  }

  /** The routes of the global `MOSS` router, in scan order. */
  function Table(): seq<Entry<Pattern, Builtin>> {
    [Entry(PingRe, Ping), Entry(ImageRe, Image), Entry(UrlRe, UrlTitle), Entry(ReactionRe, Reaction)]
  }

  /** The decorators, run as the module is loaded, register ping, image,
      url_title and reaction in that order: the result is the table above,
      with four distinct patterns. */
  lemma TableRegistration()
    ensures RegisterAll([], Table()) == Table()
    ensures UniquePatterns(Table())
    ensures forall i, j :: 0 <= i < j < |Table()| ==> Regex(Table()[i].pattern) != Regex(Table()[j].pattern)
  {
    forall i, j | 0 <= i < j < |Table()|
      ensures Regex(Table()[i].pattern) != Regex(Table()[j].pattern)
    {
      if Regex(Table()[i].pattern) == Regex(Table()[j].pattern) {
        RegexInjective(Table()[i].pattern, Table()[j].pattern);
      }
    }
    TableUnique();
    assert [] + Table() == Table();
    RegisterAllNew([], Table());
  }

  lemma TableUnique()
    ensures UniquePatterns(Table())
  {
  }

  /** The search `MOSS.serve` runs for a pattern of the table. */
  function SearchOf(env: Env): Search<Pattern> {
    (p, s) => SearchIn(env, p, s)
  }

  /** Calling the handler registered for a pattern. */
  function InvokeOf(env: Env): (Builtin, Option<string>, Option<string>) -> Exec<MsgReturn> {
    (h, r, m) => Invoke(env, h, r, m)
  }

  /** None of the four patterns is found in `text`. */
  predicate NoPatternFound(env: Env, text: string) {
    PingSearch(text).None? && ImageSearch(text).None? && env.urlSearch(text).None? && ReactionSearch(text).None?
  }

  /** `MOSS.serve` on a message body: no answer exactly when none of the
      four patterns is found. */
  function Dispatch(env: Env, text: string): (r: Option<Exec<MsgReturn>>)
    ensures r.None? <==> NoPatternFound(env, text)
  {
    NoneInTable(env, text);
    Serve(Table(), SearchOf(env), InvokeOf(env), text)
  }

  /** Reading `NoPatternFound` off the table, entry by entry. */
  lemma NoneInTable(env: Env, text: string)
    ensures (forall j :: 0 <= j < |Table()| ==> SearchOf(env)(Table()[j].pattern, text).None?)
        <==> NoPatternFound(env, text)
  {
    var t := Table();
    assert t[0].pattern == PingRe && t[1].pattern == ImageRe;
    assert t[2].pattern == UrlRe && t[3].pattern == ReactionRe;
  }

  // ---------------------------------------------------------------------
  // What the registration order makes of the built-in routes

  /** `MOSS.serve` answers with the handler of the first entry it finds. */
  lemma DispatchAt(env: Env, text: string, k: nat)
    requires FirstMatchAt(Table(), SearchOf(env), text, k)
    ensures Dispatch(env, text)
         == Some(Invoke(env, Table()[k].handler, SearchIn(env, Table()[k].pattern, text).value.route,
                        SearchIn(env, Table()[k].pattern, text).value.msg))
  {
  }

  /** `!ping` in any case is answered with a notice holding one of the three
      one-liners, whatever the other patterns would say. */
  lemma PingRoute(env: Env, text: string)
    requires PingSearch(text).Some?
    ensures Dispatch(env, text) == Some(Returns(MsgReturn("notice", Some(OneLiners[env.pingPick]))))
    ensures Dispatch(env, text).value.value.data.value in OneLiners
  {
    assert FirstMatchAt(Table(), SearchOf(env), text, 0);
    DispatchAt(env, text, 0);
  }

  /** An image link is answered by `image` with the link itself, even though
      the generic URL pattern registered after it would match it too. */
  lemma ImageRoute(env: Env, text: string)
    requires ImageSearch(text).Some?
    ensures Dispatch(env, text) == Some(Returns(MsgReturn("image", ImageSearch(text).value.route)))
    ensures '\n' !in text ==> Dispatch(env, text) == Some(Returns(MsgReturn("image", Some(text))))
  {
    var core := ImageSearch(text).value.route.value;
    ImageShapedStartsWithH(core);
    assert core[0] == text[0];
    assert PingSearch(text).None? by {
      if |text| >= 5 { assert text[..5][0] == text[0]; }
    }
    assert FirstMatchAt(Table(), SearchOf(env), text, 1);
    DispatchAt(env, text, 1);
  }

  /** A text that neither `ping` nor `image` takes but the URL pattern finds
      is answered by `url_title`. */
  lemma UrlTitleRoute(env: Env, text: string)
    requires PingSearch(text).None? && ImageSearch(text).None?
    requires env.urlSearch(text).Some?
    ensures Dispatch(env, text) == Some(UrlTitleReply(env, env.urlSearch(text).value.route))
  {
    assert FirstMatchAt(Table(), SearchOf(env), text, 2);
    DispatchAt(env, text, 2);
  }

  /** A `!reaction` command the URL pattern does not find is answered with
      the reaction type and the search term. */
  lemma ReactionRoute(env: Env, text: string)
    requires ReactionSearch(text).Some? && env.urlSearch(text).None?
    ensures Dispatch(env, text) == Some(Returns(MsgReturn("reaction", ReactionSearch(text).value.msg)))
  {
    ReactionFirst(env, text);
    DispatchAt(env, text, 3);
  }

  /** Such a command is found first by the last entry of the table. */
  lemma ReactionFirst(env: Env, text: string)
    requires ReactionSearch(text).Some? && env.urlSearch(text).None?
    ensures FirstMatchAt(Table(), SearchOf(env), text, 3)
  {
    ReactionIsNotPingOrImage(text);
    var t := Table();
    assert t[0].pattern == PingRe && t[1].pattern == ImageRe && t[2].pattern == UrlRe;
    assert t[3].pattern == ReactionRe;
  }

  /** A `!reaction` command whose term the URL pattern finds (a link, say)
      never reaches `reaction`: `url_title`, registered before it, answers. */
  lemma ReactionShadowedByUrl(env: Env, text: string)
    requires ReactionSearch(text).Some? && env.urlSearch(text).Some?
    ensures Dispatch(env, text) == Some(UrlTitleReply(env, env.urlSearch(text).value.route))
  {
    ReactionIsNotPingOrImage(text);
    UrlTitleRoute(env, text);
  }

  lemma ReactionIsNotPingOrImage(text: string)
    requires ReactionSearch(text).Some?
    ensures PingSearch(text).None? && ImageSearch(text).None?
  {
    assert text[..9][0] == text[0] && text[..9][1] == text[1];
    if |text| >= 5 { assert text[..5][1] == text[1]; }
    var core := BeforeFinalNewline(text);
    if ImageShaped(core) {
      ImageShapedStartsWithH(core);
    }
  }

  /** `MOSS.serve` with the four built-in routes: `ping` answers whenever
      its pattern is found; `image` whenever its pattern is found and `ping`'s
      is not; `url_title` whenever the URL pattern is found and neither
      earlier one is; `reaction` only when no other pattern is found; and
      nothing is answered when no pattern is found. */
  lemma DispatchCases(env: Env, text: string)
    ensures PingSearch(text).Some? ==>
      Dispatch(env, text) == Some(Invoke(env, Ping, PingSearch(text).value.route, PingSearch(text).value.msg))
    ensures PingSearch(text).None? && ImageSearch(text).Some? ==>
      Dispatch(env, text) == Some(Invoke(env, Image, ImageSearch(text).value.route, ImageSearch(text).value.msg))
    ensures PingSearch(text).None? && ImageSearch(text).None? && env.urlSearch(text).Some? ==>
      Dispatch(env, text)
        == Some(Invoke(env, UrlTitle, env.urlSearch(text).value.route, env.urlSearch(text).value.msg))
    ensures PingSearch(text).None? && ImageSearch(text).None? && env.urlSearch(text).None?
            && ReactionSearch(text).Some? ==>
      Dispatch(env, text)
        == Some(Invoke(env, Reaction, ReactionSearch(text).value.route, ReactionSearch(text).value.msg))
    ensures Dispatch(env, text).None? <==>
      PingSearch(text).None? && ImageSearch(text).None? && env.urlSearch(text).None?
      && ReactionSearch(text).None?
  {
    if PingSearch(text).Some? {
      PingRoute(env, text);
    } else if ImageSearch(text).Some? {
      ImageRoute(env, text);
    } else if env.urlSearch(text).Some? {
      UrlTitleRoute(env, text);
    } else if ReactionSearch(text).Some? {
      ReactionRoute(env, text);
    }
  }

  // ---------------------------------------------------------------------
  // The examples of the test suite

  /** Folding leaves lower-case text alone, so such a text matches itself. */
  lemma FoldEqLowerSelf(s: string)
    requires forall i :: 0 <= i < |s| ==> Fold(s[i]) == s[i]
    ensures FoldEq(s, s)
  {
  }

  /** `!ping` typed in any mix of cases. */
  lemma PingExample(env: Env, text: string)
    requires FoldEq(text, "!ping")
    ensures Dispatch(env, text).Some? && Dispatch(env, text).value.Returns?
    ensures Dispatch(env, text).value.value.kind == "notice"
    ensures Dispatch(env, text).value.value.data.value in OneLiners
  {
    assert text[..5] == text;
    PingRoute(env, text);
  }

  lemma LouvrePrefix(text: string)
    requires text == "https://" + "mediarg/thumb/d/d4/Pav_23.jpg/80ieu_Louvre_3." + "jpg"
    ensures FoldPrefix(text, "https://")
  {
    assert text[..8] == "https://";
    FoldEqLowerSelf("https://");
  }

  lemma LouvreSuffix(text: string)
    requires text == "https://" + "mediarg/thumb/d/d4/Pav_23.jpg/80ieu_Louvre_3." + "jpg"
    ensures FoldSuffix(text, "jpg")
  {
    assert text[|text| - 3..] == "jpg";
    FoldEqLowerSelf("jpg");
  }

  lemma LouvreOneLine(text: string)
    requires text == "https://" + "mediarg/thumb/d/d4/Pav_23.jpg/80ieu_Louvre_3." + "jpg"
    ensures '\n' !in text
  {
    assert '\n' !in "https://" && '\n' !in "jpg";
    assert '\n' !in "mediarg/thumb/d/d4/Pav_23.jpg/80ieu_Louvre_3.";
  }

  /** The Louvre thumbnail link is image-shaped and has no newline. */
  lemma LouvreLinkShaped(text: string)
    requires text == "https://" + "mediarg/thumb/d/d4/Pav_23.jpg/80ieu_Louvre_3." + "jpg"
    ensures ImageShaped(text) && '\n' !in text
  {
    LouvrePrefix(text);
    LouvreSuffix(text);
    LouvreOneLine(text);
    assert SchemeAndExtension(text, "https://", "jpg");
  }

  lemma ImageExample(env: Env, text: string)
    requires text == "https://" + "mediarg/thumb/d/d4/Pav_23.jpg/80ieu_Louvre_3." + "jpg"
    ensures Dispatch(env, text) == Some(Returns(MsgReturn("image", Some(text))))
  {
    LouvreLinkShaped(text);
    ImageRoute(env, text);
  }

  lemma ReactionExample(env: Env, text: string)
    requires text == "!reaction" + " " + "foo bar"
    requires env.urlSearch(text).None?
    ensures Dispatch(env, text) == Some(Returns(MsgReturn("reaction", Some("foo bar"))))
  {
    assert text[..9] == "!reaction";
    FoldEqLowerSelf("!reaction");
    assert ReactionSplit(text, 10, 17);
    var g := ReactionSearch(text).value;
    var a, b :| ReactionSplit(text, a, b) && g.msg == Some(text[a..b])
                && (b == |text| || text[b] == '\n')
                && forall a', b' :: ReactionSplit(text, a', b') ==> a' <= a;
    assert !IsSpace(text[10]);
    assert b == 17;
    assert text[10..17] == "foo bar";
    ReactionRoute(env, text);
  }

  /** A page whose title is found is answered with the link to it. */
  lemma UrlTitleFound(env: Env, url: string, title: string)
    requires env.fetchTitle(url) == Title(Some(title))
    ensures UrlTitleReply(env, Some(url)) == Returns(MsgReturn("html", Some(Anchor(url, title))))
  {
  }

  lemma FooBarIsNotPingOrImage(text: string)
    requires text == "http://foo.bar"
    ensures PingSearch(text).None? && ImageSearch(text).None?
  {
    assert text[0] == 'h' && text[|text| - 1] == 'r';
    if |text| >= 5 { assert text[..5][0] == 'h'; }
    assert '\n' !in text;
    assert BeforeFinalNewline(text) == text;
    assert text[|text| - 3..][2] == 'r' && text[|text| - 4..][3] == 'r';
  }

  lemma FooBarAnchor(text: string)
    requires text == "http://foo.bar"
    ensures Anchor(text, "foobar") == "<a href=\"http://foo.bar\">foobar</a>"
  {
  }

  lemma UrlTitleExample(env: Env, text: string)
    requires text == "http://foo.bar"
    requires env.urlSearch(text) == Some(Groups(Some(text), Some("")))
    requires env.fetchTitle(text) == Title(Some("foobar"))
    ensures Dispatch(env, text)
         == Some(Returns(MsgReturn("html", Some("<a href=\"http://foo.bar\">foobar</a>"))))
  {
    FooBarIsNotPingOrImage(text);
    UrlTitleRoute(env, text);
    UrlTitleFound(env, text, "foobar");
    FooBarAnchor(text);
  }
}
