# mossbot in Dafny

A model of the message path of mossbot, a Matrix chat bot written in Python
(`mossbot.py`). Each incoming room event is first handed to `store_msg`,
which stores only `m.text` events, in a per-sender history capped at ten
messages. A text message from anyone but the bot then
goes to the router `MOSS`, which calls the handler of the first registered
regular expression that a case-insensitive search finds in the body. The
route's answer, a `MSG_RETURN(type, data)`, becomes at most one call on the
room: a text, a notice, an HTML message, or an image posted by `write_media`.
A `reaction` answer first looks up a gif on Giphy.

Modules, in the order of the program:

- `Base`: Python's `None` (`Option`), a call that may raise (`Exec`), the
  truthiness of an optional string, and `MSG_RETURN`.
- `Text`: the `re.IGNORECASE` fold and the `\s` class of Python's `re` module
  on `str` patterns, as far as the bot's patterns need them.
- `Router`: `MossBot.route` and `MossBot.serve`, generic in the handlers and
  in the regex engine.
- `Routes`: the four built-in routes in registration order (`ping`, `image`,
  `url_title`, `reaction`), exact matchers for the `ping`, `image` and
  `reaction` patterns, and the handlers.
- `Giphy`: `get_giphy_reaction_url`, given the search answer and the random
  pick.
- `Media`: `MatrixHandler.write_media`, given the downloader and the library
  calls it makes.
- `History`: `MatrixHandler.store_msg`, with both a loop (`StoreMsg`) and a
  declarative reference (`Stored`) that the loop is proved to compute.
- `Handler`: `MatrixHandler.on_message` and the rendering of a route's answer.

Behaviour of the code that the model keeps:

- A handler can raise. `url_title` reads `soup.title.string` outside its
  `try`, so a page without a `<title>` raises out of `serve` and
  `on_message`. `serve` itself raises `KeyError` for an `m.text` event
  without a `body`. Both are the `Raises` outcome.
- `reaction` answers `('reaction', term)`, and `on_message` does the gif
  lookup. When the lookup finds nothing, nothing is sent. No `skip` answer
  is produced.
- `route` may register a pattern twice. The second handler replaces the
  first at the first one's position (`Router.ReRegisterKeepsPosition`).
- `store_msg` runs before the sender check, so the bot's own messages are
  stored too. An `m.text` event without a body still loses its sender's
  oldest records before the insert raises (and the error is caught).

## Model

| member | source | states |
|---|---|---|
| Router.Register | mossbot.py:76-85 | A new pattern goes to the end of the scan order. A pattern already present keeps its position, and every entry under another pattern is unchanged. |
| Router.RegisterNew | mossbot.py:81 | Registering a pattern the table does not hold appends exactly one entry, with that pattern and handler. |
| Router.RegisterAllNew | mossbot.py:79-83 | Registering entries one after the other, under patterns that are distinct and new to the table, appends them in registration order. |
| Router.RegisterUnique | mossbot.py:79-83 | In a table without duplicate patterns, registering keeps the patterns distinct, and the entry under the registered pattern holds the new handler. |
| Router.Scan | mossbot.py:94-97 | Returns the first index at or after the start whose pattern is found, with no match before it; `None` only when no pattern from there on is found. |
| Router.Serve | mossbot.py:87-122 | The answer is `None` exactly when no pattern is found. Otherwise it is the result of calling the handler of the earliest matching entry with that match's `route` and `msg` groups. |
| Router.ServeIgnoresLaterEntries | mossbot.py:94-116 | Once a pattern matches, entries registered after the table do not change the answer. |
| Router.ReRegisterKeepsPosition | mossbot.py:79-83 | After a pattern is re-registered, `serve` answers with the new handler wherever that pattern was the first match. |
| Text.Fold | mossbot.py:95 | The case fold maps ASCII upper case to lower case. It maps dotted and dotless I to `i`, long s to `s` and the Kelvin sign to `k`, and leaves every other character as it is. |
| Text.SpaceRun | mossbot.py:180 | The greedy `\s+` run: every character in it is white space, and the character after it is not. |
| Text.LineEnd | mossbot.py:180 | A greedy `.` run stops at the first newline or at the end. |
| Routes.BeforeFinalNewline | mossbot.py:140 | The part a `$` may close: a text ending in a newline loses exactly that newline, and any other text is kept whole. |
| Routes.PingSearch | mossbot.py:128 | The ping pattern is found exactly when the text, without one final newline, is `!ping` in any mix of cases; the route group is the first five characters and there is no `msg` group. |
| Routes.ImageSearch | mossbot.py:140 | The route group is the whole text up to one final newline. It has no newline, starts with `http://` or `https://` and ends with an image extension, in any case. For newline-free text it matches exactly when the text has that shape, and a text of that shape followed by one newline matches with the newline left out. |
| Routes.LastNonNewline | mossbot.py:180 | Finds the last position `.+` can take after the `\s+` has given characters back. |
| Routes.ReactionSearch | mossbot.py:180 | Matches exactly when `!reaction`, white space and at least one non-newline character can be split off the start. The route is the first nine characters. The term starts where the longest possible `\s+` ends and runs to a newline or the end. |
| Routes.UrlTitleReply | mossbot.py:157-177 | A failed fetch answers `skip` with no data. A page without a title raises, and nothing else does. A page with a title answers `html` with the anchor of the URL and the title's string, which is the text `None` when the title element has no single string. |
| Routes.Anchor | mossbot.py:174-177 | The link is `<a href="` + URL + `">` + title + `</a>`; each part is at its stated position. |
| Routes.RegexInjective | mossbot.py:128-180 | The four regular expressions are different strings, so each key of the table stands for exactly one of them. |
| Routes.TableRegistration | mossbot.py:125-183 | Running the four decorators in file order registers ping, image, url_title and reaction in that order, under four distinct patterns whose regular expressions are distinct strings. |
| Routes.Invoke | mossbot.py:128-183 | `ping` answers a notice with one of the one-liners, `image` answers `image` with the route, `reaction` answers `reaction` with the term, and a handler raises exactly when it is `url_title` on a page without a title. |
| Routes.Dispatch | mossbot.py:87-122 | `MOSS.serve` on a body answers nothing exactly when none of the four patterns is found in it. |
| Routes.PingRoute | mossbot.py:128-137 | A text the ping pattern finds is answered with a notice holding one of the three one-liners, whatever the later patterns say. |
| Routes.ImageRoute | mossbot.py:140-143 | An image link is answered by `image` with the link itself, although the URL pattern registered after it would also match. |
| Routes.UrlTitleRoute | mossbot.py:146-177 | A text that `ping` and `image` do not take but the URL pattern finds is answered by `url_title` on the URL the pattern found. |
| Routes.ReactionRoute | mossbot.py:180-183 | A `!reaction` command that the URL pattern does not find is answered with `reaction` and the search term. |
| Routes.ReactionShadowedByUrl | mossbot.py:146-183 | A `!reaction` command whose term the URL pattern finds is answered by `url_title`, which is registered before `reaction`. |
| Routes.ReactionIsNotPingOrImage | mossbot.py:128-180 | No `!reaction` command matches the ping or the image pattern. |
| Routes.ImageShapedStartsWithH | mossbot.py:140 | Every text of image-link shape starts with `h` or `H`. |
| Routes.DispatchCases | mossbot.py:87-183 | `serve` with the four built-in routes: `ping` answers whenever its pattern is found, `image` whenever its pattern is and `ping`'s is not, `url_title` whenever only later patterns are, `reaction` only when no earlier pattern is found, and there is no answer exactly when no pattern is found. |
| Routes.PingExample | test_mossbot.py:37-55 | `!ping`, in any mix of cases, is answered with a notice holding one of the one-liners. |
| Routes.ImageExample | test_mossbot.py:80-90 | The Louvre thumbnail link is answered with `('image', link)`. |
| Routes.ReactionExample | test_mossbot.py:93-97 | `!reaction foo bar` is answered with `('reaction', 'foo bar')`. |
| Routes.UrlTitleFound | mossbot.py:171-177 | A page whose title is found is answered with an `html` link to it. |
| Routes.FooBarIsNotPingOrImage | test_mossbot.py:58-69 | `http://foo.bar` is not taken by the ping or image route. |
| Routes.FooBarAnchor | test_mossbot.py:62 | The link for `http://foo.bar` titled `foobar` is `<a href="http://foo.bar">foobar</a>`. |
| Routes.UrlTitleExample | test_mossbot.py:58-69 | `http://foo.bar` with the title `foobar` is answered with that link as `html`. |
| Giphy.StripQuery | mossbot.py:204 | The result is a prefix of the URL, contains no `?`, and is followed in the URL by `?` when shorter. |
| Giphy.StripQueryUnique | mossbot.py:204 | Those three properties determine the result. |
| Giphy.StripQueryKeepsPlainUrl | mossbot.py:204 | A URL without a query string is kept as it is. |
| Giphy.StripQueryIdempotent | mossbot.py:204 | Stripping twice is stripping once. |
| Giphy.StripQuerySplitsAtMark | mossbot.py:204 | The URL is the stripped part followed by a remainder that is empty or starts with `?`. |
| Giphy.ReactionUrl | mossbot.py:186-211 | A URL comes back exactly when the request succeeded, `data` is present and non-empty, and the picked gif has a downsized URL. It is that URL cut before its first `?`, and equal to it when it has none. |
| Giphy.ReactionUrlChoices | mossbot.py:200-204 | The possible answers, over all picks, are exactly the stripped URLs of the gifs in the list. |
| Giphy.FingerprintExample | test_mossbot.py:179-226 | A single gif `https://foo.tld/bar.gif?fingerprint=abc` gives `https://foo.tld/bar.gif`. |
| Giphy.NoDataExample | test_mossbot.py:208-237 | A failed request, an answer without `data` or with an empty `data` gives `None`. |
| Media.LastSegment | mossbot.py:423 | The name has no `/`, is a suffix of the path, and starts the path or follows a `/`. |
| Media.LastSegmentUnique | mossbot.py:423 | Those three properties determine the name. |
| Media.Mimetype | mossbot.py:418-420 | The `Content-Type` header when it is a non-empty string, otherwise the guess from the URL. |
| Media.WriteMedia | mossbot.py:397-445 | Something is posted exactly when the media type is `image` and the download succeeds. It uploads the downloaded bytes with the same mimetype it posts, names the image after the last path segment, and passes the image's height and width. |
| Media.ImageGifName | test_mossbot.py:375-381 | The path `/image.gif` gives the name `image.gif`. |
| Media.WriteMediaExample | test_mossbot.py:335-381 | A 200×100 gif, typed by its header or by the guess, is uploaded and posted as `image.gif` with `image/gif`, `h=100`, `w=200`. |
| Media.WriteMediaNothing | test_mossbot.py:384-415 | A failed download, or a media type other than `image`, posts nothing. |
| History.BodiesAppend | mossbot.py:457-459 | A sender's records in two concatenated tables are its records in the first, then in the second. |
| History.BodiesDropOldest | mossbot.py:463 | Removing a sender's `k` oldest records removes its first `k` bodies and nobody else's. |
| History.DropNothing | mossbot.py:461-467 | Removing no record leaves the table as it is. |
| History.DropOldestTwice | mossbot.py:461-467 | Removing `j` oldest records and then `k` more removes the `j + k` oldest. |
| History.Stored | mossbot.py:447-479 | Any event other than `m.text` leaves the table alone. After an `m.text` event with a body, the newest record of the table is that body under the sender. What each sender keeps is `History.StoredPerSender`. |
| History.StoredPerSender | mossbot.py:447-479 | For an `m.text` event the sender keeps its newest `min(n, 9)` records, followed by the new body: at most ten. Other senders are untouched, and any other event changes nothing. |
| History.StoreMsg | mossbot.py:447-479 | The eviction loop computes the declarative table `Stored`. The sender ends with at most ten records, the new body last, and no other sender changes. |
| History.TwelfthMessage | mossbot.py:461-474 | After eleven messages and a twelfth, the sender's last ten remain: the third to the twelfth. |
| Handler.Render | mossbot.py:288-323 | Gives text, notice and HTML exactly for those types with non-empty data, sending that data. An image is posted for `image`, and for `reaction` only when the gif lookup finds a URL. Nothing is sent otherwise. |
| Handler.OnMessage | mossbot.py:274-323 | `store_msg` is always called, and it stores only `m.text` events. Only an `m.text` event from someone else is routed. The call raises exactly when such an event has no body or its handler raised. Any call on the room renders the router's answer. |
| Handler.Moss | mossbot.py:125-183 | The global router with its four routes answers a body unless none of the four patterns is found in it. |
| Handler.Answered | mossbot.py:287-323 | When the router answers someone else's text message without raising, the room receives the rendering of that answer. |
| Handler.IgnoredEvents | mossbot.py:281-287 | The bot's own text messages are stored, other events leave the table alone, and neither reaches the room. |
| Handler.PingIsNoticed | mossbot.py:290-294 | Anyone else's `!ping` is answered in the room with a notice holding a one-liner. |
| Handler.ImageLinkIsPosted | mossbot.py:299-300 | Anyone else's image link without a newline is handed to `write_media` as an image; when the download succeeds, `write_media` posts it under a name without `/`. |
| Handler.ReactionPostsGif | mossbot.py:302-311 | A `!reaction` command that the URL pattern does not find posts the looked-up gif without its query string exactly when the lookup finds one, and otherwise sends nothing. |
| Handler.EmptyEventExample | test_mossbot.py:100-111 | An event with empty content is not stored and causes no call on the room. |
| Handler.RenderExamples | test_mossbot.py:114-332 | The answers of the on_message tests become `write_media` for image and reaction, `send_text`, `send_notice` and `send_html` with `Foo Bar`, and nothing for `skip`. |

## Left out

- Connecting, logging in, joining rooms, `listen_forever`, `start_listener_process`, the planned reconnect and `on_invite` are network and process supervision, not message handling.
- `get_image` (HTTP download, PIL decoding), `requests`, BeautifulSoup, `mimetypes.guess_type`, `urlsplit` and `quote_plus` are library calls. Their results are parameters (`Media.Fetchers`, `Routes.Env`, the Giphy `Answer`).
- The TinyDB file format and its document ids are out of scope. The table is a sequence in insertion order.
- `main`, the click options and YAML config loading are start-up plumbing.
- Routes.UrlTitleRoute: the URL regular expression of `url_title` (mossbot.py:146-156) is not given a matcher, because its nested groups and character classes add nothing the routing properties need. It is the parameter `Env.urlSearch`.
- The `if func:` branch of `serve` (mossbot.py:104-120) is left out, because a registered handler is a function and always truthy.
- The decorator's return of the decorated function is left out, because handlers are tags here and function values cannot be compared.
- An event without `sender` or `content` is not modelled: events are records with both.
- The Giphy request URL is not modelled, because the request is a parameter. The code asks for `limit=20`; the test suite expects `limit=5`.
- The test fixture's two-argument `MatrixHandler(config, db)` constructor is left out; only the configuration keys `uid` and `giphy_api_key` are modelled.
- Media.WriteMedia: exceptions raised by `client.upload` or `room.send_image` are not modelled. The post is the value handed to them.
- Handler.OnMessage: exceptions raised by `room.send_text`, `room.send_notice` or `room.send_html` (mossbot.py:291-297) are not modelled, because they are network calls. They would escape `on_message`; the model returns the action handed to them.
- Text.Fold covers ASCII and the four non-ASCII letters that fold onto ASCII letters. Folding between other non-ASCII letters is left out, because every pattern letter is ASCII.
- Exception types, logging and the per-call `random.choice` are not modelled. The random choices are the parameters `Env.pingPick` and `pick`.
