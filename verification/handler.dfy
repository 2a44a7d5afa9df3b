/** `MatrixHandler.on_message`: store the event, hand text messages from
    other users to the router, and turn the route's answer into at most one
    call on the room. */
module Handler {
  import opened Base
  import opened History
  import Text
  import Routes
  import Giphy
  import Media

  /** The configuration keys `on_message` reads. */
  datatype Config = Config(uid: string, giphyApiKey: string)

  /** The one call `on_message` makes on the room, if any: `send_text`,
      `send_notice`, `send_html`, or `write_media(media_type, room, url)`. */
  datatype Action =
    | SendText(text: string)
    | SendNotice(text: string)
    | SendHtml(html: string)
    | PostMedia(mediaType: string, url: string)
    | Nothing

  /** `get_giphy_reaction_url(api_key, term)`. */
  type Lookup = (string, string) -> Option<string>

  /** The router as `on_message` sees it: the answer of `MOSS.serve` for a
      message body, `Raises` when a handler raised. */
  type ServeFn = string -> Option<Exec<MsgReturn>>

  /** The branch on the route's answer. Nothing is sent for no answer or an
      answer whose data is empty or `None`, for `skip`, for an unknown type,
      and for a reaction whose gif lookup finds nothing. */
  function Render(reply: Option<MsgReturn>, apiKey: string, lookup: Lookup): (a: Action)
    ensures a != Nothing ==> reply.Some? && Truthy(reply.value.data)
    ensures a.SendText? <==> reply.Some? && Truthy(reply.value.data) && reply.value.kind == "text"
    ensures a.SendNotice? <==> reply.Some? && Truthy(reply.value.data) && reply.value.kind == "notice"
    ensures a.SendHtml? <==> reply.Some? && Truthy(reply.value.data) && reply.value.kind == "html"
    ensures a.PostMedia? <==>
      && reply.Some? && Truthy(reply.value.data)
      && (|| reply.value.kind == "image"
          || (reply.value.kind == "reaction" && Truthy(lookup(apiKey, reply.value.data.value))))
    ensures a.SendText? ==> a.text == reply.value.data.value
    ensures a.SendNotice? ==> a.text == reply.value.data.value
    ensures a.SendHtml? ==> a.html == reply.value.data.value
    ensures a.PostMedia? ==> a.mediaType == "image"
    ensures a.PostMedia? && reply.value.kind == "image" ==> a.url == reply.value.data.value
    ensures a.PostMedia? && reply.value.kind == "reaction" ==>
              a.url == lookup(apiKey, reply.value.data.value).value
  {
    match reply
    case None => Nothing
    case Some(m) =>
      if !Truthy(m.data) then Nothing
      else if m.kind == "text" then SendText(m.data.value)
      else if m.kind == "notice" then SendNotice(m.data.value)
      else if m.kind == "html" then SendHtml(m.data.value)
      else if m.kind == "image" then PostMedia("image", m.data.value)
      else if m.kind == "reaction" then
        var gif := lookup(apiKey, m.data.value);
        if Truthy(gif) then PostMedia("image", gif.value) else Nothing
      else Nothing
  }

  /** The table after the event, and what `on_message` did to the room or
      whether it raised. */
  datatype Handled = Handled(store: Store, outcome: Exec<Action>)

  /** The event reaches the router: an `m.text` message not sent by the bot. */
  predicate Dispatches(cfg: Config, e: Event) {
    IsText(e) && e.sender != cfg.uid
  }

  /** `on_message(room, event)`. `store_msg` is always called, and it stores
      only `m.text` events. Only an
      `m.text` event from someone else is routed; reading its body raises
      when it has none, and a handler's exception passes through. */
  function OnMessage(cfg: Config, store: Store, e: Event, serve: ServeFn, lookup: Lookup): (h: Handled)
    ensures h.store == Stored(store, e)
    ensures !Dispatches(cfg, e) ==> h.outcome == Returns(Nothing)
    ensures h.outcome.Raises? <==>
      Dispatches(cfg, e) && ("body" !in e.content || serve(e.content["body"]) == Some(Raises))
    ensures h.outcome.Returns? && h.outcome.value != Nothing ==>
      && Dispatches(cfg, e) && "body" in e.content
      && serve(e.content["body"]).Some? && serve(e.content["body"]).value.Returns?
      && h.outcome.value == Render(Some(serve(e.content["body"]).value.value), cfg.giphyApiKey, lookup)
  {
    var stored := Stored(store, e);
    if !Dispatches(cfg, e) then Handled(stored, Returns(Nothing))
    else if "body" !in e.content then Handled(stored, Raises)
    else
      match serve(e.content["body"])
      case None => Handled(stored, Returns(Render(None, cfg.giphyApiKey, lookup)))
      case Some(Raises) => Handled(stored, Raises)
      case Some(Returns(m)) => Handled(stored, Returns(Render(Some(m), cfg.giphyApiKey, lookup)))
  }

  /** The global router `MOSS` with its four routes: it answers a body
      unless none of the four patterns is found in it. */
  function Moss(env: Routes.Env): (serve: ServeFn)
    ensures forall text :: serve(text).None? <==> Routes.NoPatternFound(env, text)
  {
    text => Routes.Dispatch(env, text)
  }

  // ---------------------------------------------------------------------
  // From a message to the room

  /** The bot's own text messages are stored, other events leave the table
      alone, and neither reaches the room. */
  lemma IgnoredEvents(cfg: Config, store: Store, e: Event, serve: ServeFn, lookup: Lookup)
    requires !IsText(e) || e.sender == cfg.uid
    ensures OnMessage(cfg, store, e, serve, lookup) == Handled(Stored(store, e), Returns(Nothing))
    ensures !IsText(e) ==> OnMessage(cfg, store, e, serve, lookup).store == store
  {
  }

  /** When the router answers someone else's text message without raising,
      what reaches the room is the rendering of that answer. */
  lemma Answered(cfg: Config, store: Store, e: Event, serve: ServeFn, lookup: Lookup, m: MsgReturn)
    requires Dispatches(cfg, e) && "body" in e.content
    requires serve(e.content["body"]) == Some(Returns(m))
    ensures OnMessage(cfg, store, e, serve, lookup).outcome == Returns(Render(Some(m), cfg.giphyApiKey, lookup))
  {
  }

  /** Anybody else's `!ping`, in any case, is answered with a notice holding
      one of the one-liners. */
  lemma PingIsNoticed(cfg: Config, store: Store, e: Event, env: Routes.Env, lookup: Lookup)
    requires Dispatches(cfg, e) && "body" in e.content
    requires Text.FoldEq(e.content["body"], "!ping")
    ensures OnMessage(cfg, store, e, Moss(env), lookup).outcome.Returns?
    ensures OnMessage(cfg, store, e, Moss(env), lookup).outcome.value.SendNotice?
    ensures OnMessage(cfg, store, e, Moss(env), lookup).outcome.value.text in Routes.OneLiners
  {
    var body := e.content["body"];
    assert body[..5] == body;
    Routes.PingRoute(env, body);
    var liner := Routes.OneLiners[env.pingPick];
    assert |liner| > 0;
    var m := MsgReturn("notice", Some(liner));
    assert Moss(env)(body) == Some(Returns(m));
    Answered(cfg, store, e, Moss(env), lookup, m);
  }

  /** An image link is posted as an image, under the last segment of its
      path; the generic URL route never sees it. */
  lemma ImageLinkIsPosted(cfg: Config, store: Store, e: Event, env: Routes.Env, lookup: Lookup,
                          f: Media.Fetchers)
    requires Dispatches(cfg, e) && "body" in e.content && '\n' !in e.content["body"]
    requires Routes.ImageSearch(e.content["body"]).Some?
    requires f.getImage(e.content["body"]).Some?
    ensures OnMessage(cfg, store, e, Moss(env), lookup).outcome
         == Returns(PostMedia("image", e.content["body"]))
    ensures Media.WriteMedia(f, "image", e.content["body"]).Some?
    ensures '/' !in Media.WriteMedia(f, "image", e.content["body"]).value.name
  {
    var body := e.content["body"];
    Routes.ImageRoute(env, body);
    assert body != "" by {
      var core := Routes.ImageSearch(body).value.route.value;
      Routes.ImageShapedStartsWithH(core);
    }
  }

  /** A `!reaction` command whose term the URL pattern does not find posts
      the gif the lookup returns for the configured key and the term, with
      its query string removed. */
  lemma ReactionPostsGif(cfg: Config, store: Store, e: Event, env: Routes.Env, lookup: Lookup,
                         answer: Giphy.Answer, pick: nat)
    requires Dispatches(cfg, e) && "body" in e.content
    requires Routes.ReactionSearch(e.content["body"]).Some?
    requires env.urlSearch(e.content["body"]).None?
    requires Giphy.HasGifs(answer) ==> pick < |answer.data.value|
    requires lookup(cfg.giphyApiKey, Routes.ReactionSearch(e.content["body"]).value.msg.value)
          == Giphy.ReactionUrl(answer, pick)
    ensures var out := OnMessage(cfg, store, e, Moss(env), lookup).outcome;
      && out.Returns?
      && (Truthy(Giphy.ReactionUrl(answer, pick)) <==> out.value.PostMedia?)
      && (out.value.PostMedia? ==> out.value.url == Giphy.ReactionUrl(answer, pick).value
                                    && '?' !in out.value.url)
      && (!out.value.PostMedia? ==> out.value == Nothing)
  {
    var body := e.content["body"];
    Routes.ReactionRoute(env, body);
    var g := Routes.ReactionSearch(body).value;
    var a, b :| Routes.ReactionSplit(body, a, b) && g.msg == Some(body[a..b]);
    assert Truthy(g.msg);
    var m := MsgReturn("reaction", g.msg);
    assert Moss(env)(body) == Some(Returns(m));
    Answered(cfg, store, e, Moss(env), lookup, m);
  }

  // The examples of the test suite

  /** An event without content keys is stored nowhere and answered by nobody. */
  lemma EmptyEventExample(cfg: Config, store: Store, serve: ServeFn, lookup: Lookup, sender: string)
    ensures OnMessage(cfg, store, Event(sender, map[]), serve, lookup) == Handled(store, Returns(Nothing))
  {
  }

  lemma RenderExamples(lookup: Lookup)
    requires lookup("f00b4r", "it crowd") == Some("https://foo.tld/bar.gif")
    ensures Render(Some(MsgReturn("reaction", Some("it crowd"))), "f00b4r", lookup)
         == PostMedia("image", "https://foo.tld/bar.gif")
    ensures Render(Some(MsgReturn("image", Some("http://foo.tld/bar.png"))), "f00b4r", lookup)
         == PostMedia("image", "http://foo.tld/bar.png")
    ensures Render(Some(MsgReturn("text", Some("Foo Bar"))), "f00b4r", lookup) == SendText("Foo Bar")
    ensures Render(Some(MsgReturn("notice", Some("Foo Bar"))), "f00b4r", lookup) == SendNotice("Foo Bar")
    ensures Render(Some(MsgReturn("html", Some("Foo Bar"))), "f00b4r", lookup) == SendHtml("Foo Bar")
    ensures Render(Some(MsgReturn("skip", None)), "f00b4r", lookup) == Nothing
  {
  }
}
