/** `get_giphy_reaction_url`: pick one gif of a Giphy search answer and drop
    the query string (the fingerprint) from its downsized URL.

    The HTTP request is not modelled: its outcome is the `Answer` parameter.
    `random.choice` is the `pick` parameter, any index into the list. */
module Giphy {
  import opened Base

  /** One element of the answer's `data` list: its `images.downsized.url`,
      or `None` when one of those keys is missing (the `KeyError` is caught). */
  datatype Gif = Gif(downsizedUrl: Option<string>)

  /** What the search request gives: it raised (no connection, no JSON), or
      a JSON object whose `data` key may be missing. */
  datatype Answer = RequestFailed | Json(data: Option<seq<Gif>>)

  /** The answer holds at least one gif to choose from. */
  predicate HasGifs(answer: Answer) {
    answer.Json? && answer.data.Some? && |answer.data.value| >= 1
  }

  /** `url.split('?')[0]`: everything before the first `?`. */
  function StripQuery(url: string): (r: string)
    ensures r <= url
    ensures '?' !in r
    ensures |r| < |url| ==> url[|r|] == '?'
  {
    if |url| == 0 || url[0] == '?' then "" else [url[0]] + StripQuery(url[1..])
  }

  /** The three properties of `StripQuery` pin its result down: it is the
      only prefix without `?` that ends at a `?` or at the end. */
  lemma StripQueryUnique(url: string, p: string)
    requires p <= url && '?' !in p
    requires |p| == |url| || url[|p|] == '?'
    ensures StripQuery(url) == p
  {
  }

  /** A URL without a query string is kept as it is. */
  lemma StripQueryKeepsPlainUrl(url: string)
    requires '?' !in url
    ensures StripQuery(url) == url
  {
    StripQueryUnique(url, url);
  }

  /** Stripping twice is stripping once. */
  lemma StripQueryIdempotent(url: string)
    ensures StripQuery(StripQuery(url)) == StripQuery(url)
  {
    StripQueryKeepsPlainUrl(StripQuery(url));
  }

  /** Stripping cuts the URL at the first `?`: what was removed is empty or
      starts with `?`. */
  lemma StripQuerySplitsAtMark(url: string)
    ensures url == StripQuery(url) + url[|StripQuery(url)|..]
    ensures |StripQuery(url)| < |url| ==> url[|StripQuery(url)|..][0] == '?'
  {
  }

  /** `get_giphy_reaction_url` given the search answer and the index that
      `random.choice` picks. `None` when the request failed, when `data` is
      missing or empty, or when the picked gif has no downsized URL;
      otherwise that URL cut at its first `?` (the three properties
      `StripQueryUnique` shows determine the cut). */
  function ReactionUrl(answer: Answer, pick: nat): (r: Option<string>)
    requires HasGifs(answer) ==> pick < |answer.data.value|
    ensures r.Some? <==> HasGifs(answer) && answer.data.value[pick].downsizedUrl.Some?
    ensures r.Some? ==> '?' !in r.value
    ensures r.Some? ==> r.value <= answer.data.value[pick].downsizedUrl.value
    ensures r.Some? && |r.value| < |answer.data.value[pick].downsizedUrl.value| ==>
              answer.data.value[pick].downsizedUrl.value[|r.value|] == '?'
    ensures r.Some? && '?' !in answer.data.value[pick].downsizedUrl.value ==>
              r.value == answer.data.value[pick].downsizedUrl.value
  {
    if HasGifs(answer) then
      match answer.data.value[pick].downsizedUrl
      case Some(url) => Some(StripQuery(url))
      case None => None
    else None
  }

  /** Whatever index is picked, the answer is the stripped URL of some gif
      of the list, and every gif with a URL can be the answer. */
  lemma ReactionUrlChoices(answer: Answer, u: string)
    requires HasGifs(answer)
    ensures (exists pick: nat :: pick < |answer.data.value| && ReactionUrl(answer, pick) == Some(u))
        <==> (exists g :: g in answer.data.value && g.downsizedUrl.Some? && StripQuery(g.downsizedUrl.value) == u)
  {
    var gifs := answer.data.value;
    if exists g :: g in gifs && g.downsizedUrl.Some? && StripQuery(g.downsizedUrl.value) == u {
      var g :| g in gifs && g.downsizedUrl.Some? && StripQuery(g.downsizedUrl.value) == u;
      var i :| 0 <= i < |gifs| && gifs[i] == g;
      assert ReactionUrl(answer, i) == Some(u);
    }
  }

  // The examples of the test suite

  lemma FingerprintExample(answer: Answer)
    requires answer == Json(Some([Gif(Some("https://foo.tld/bar.gif" + "?fingerprint=abc"))]))
    ensures ReactionUrl(answer, 0) == Some("https://foo.tld/bar.gif")
  {
    var url := "https://foo.tld/bar.gif" + "?fingerprint=abc";
    assert url[|"https://foo.tld/bar.gif"|] == '?';
    assert '?' !in "https://foo.tld/bar.gif";
    StripQueryUnique(url, "https://foo.tld/bar.gif");
  }

  lemma NoDataExample(pick: nat)
    ensures ReactionUrl(Json(None), pick).None?
    ensures ReactionUrl(Json(Some([])), pick).None?
    ensures ReactionUrl(RequestFailed, pick).None?
  {
  }
}
