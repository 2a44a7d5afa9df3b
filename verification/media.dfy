/** `MatrixHandler.write_media`: download an image, upload it to the home
    server and post it to the room, with its mimetype, file name and size.

    Downloading and decoding (`get_image`), `mimetypes.guess_type` and
    `urlsplit(...).path` are library calls; their results are the fields of
    `Fetchers`. */
module Media {
  import opened Base

  /** What `get_image` hands back for a successful download: the
      `Content-Type` header (possibly absent), the bytes, and the size PIL
      reads from them. */
  datatype ImageData = ImageData(contentType: Option<string>, image: seq<bv8>,
                                 width: int, height: int)

  /** The keyword arguments of `room.send_image`. */
  datatype MediaInfo = MediaInfo(mimetype: Option<string>, h: int, w: int)

  /** What reaches the server: `client.upload(image, mimetype)` and then
      `room.send_image(uploaded, name, **info)`. */
  datatype Post = Post(upload: seq<bv8>, uploadMimetype: Option<string>,
                       name: string, info: MediaInfo)

  datatype Fetchers = Fetchers(getImage: string -> Option<ImageData>,
                               guessType: string -> Option<string>,
                               urlPath: string -> string)

  /** `path.split('/')[-1]`: the text after the last `/`, or the whole path
      when it has none. */
  function LastSegment(path: string): (name: string)
    ensures '/' !in name
    ensures |name| <= |path| && name == path[|path| - |name|..]
    ensures |name| < |path| ==> path[|path| - |name| - 1] == '/'
  {
    if |path| == 0 then ""
    else if path[|path| - 1] == '/' then ""
    else LastSegment(path[..|path| - 1]) + [path[|path| - 1]]
  }

  /** The three properties of `LastSegment` pin its result down: it is the
      only slash-free suffix that starts the path or follows a `/`. */
  lemma LastSegmentUnique(path: string, name: string)
    requires '/' !in name && |name| <= |path| && name == path[|path| - |name|..]
    requires |name| == |path| || path[|path| - |name| - 1] == '/'
    ensures LastSegment(path) == name
  {
  }

  /** The mimetype sent: the `Content-Type` header when it is a non-empty
      string, else what `mimetypes.guess_type` makes of the URL. */
  function Mimetype(f: Fetchers, url: string, data: ImageData): (m: Option<string>)
    ensures Truthy(data.contentType) ==> m == data.contentType
    ensures !Truthy(data.contentType) ==> m == f.guessType(url)
  {
    if Truthy(data.contentType) then data.contentType else f.guessType(url)
  }

  /** `write_media(media_type, room, url)`: nothing is uploaded or sent for a
      media type other than "image" or when the download fails; otherwise
      the image is uploaded and posted under the last segment of the URL's
      path. */
  function WriteMedia(f: Fetchers, mediaType: string, url: string): (r: Option<Post>)
    ensures r.Some? <==> mediaType == "image" && f.getImage(url).Some?
    ensures r.Some? ==> r.value.upload == f.getImage(url).value.image
    ensures r.Some? ==> r.value.uploadMimetype == r.value.info.mimetype
    ensures r.Some? && Truthy(f.getImage(url).value.contentType) ==>
              r.value.info.mimetype == f.getImage(url).value.contentType
    ensures r.Some? && !Truthy(f.getImage(url).value.contentType) ==>
              r.value.info.mimetype == f.guessType(url)
    ensures r.Some? ==> '/' !in r.value.name
    ensures r.Some? ==> r.value.name == LastSegment(f.urlPath(url))
    ensures r.Some? ==> r.value.info.h == f.getImage(url).value.height
    ensures r.Some? ==> r.value.info.w == f.getImage(url).value.width
  {
    if mediaType != "image" then None
    else
      match f.getImage(url)
      case None => None
      case Some(data) =>
        var info := MediaInfo(Mimetype(f, url, data), data.height, data.width);
        Some(Post(data.image, info.mimetype, LastSegment(f.urlPath(url)), info))
  }

  // The examples of the test suite

  lemma ImageGifName(path: string)
    requires path == "/" + "image.gif"
    ensures LastSegment(path) == "image.gif"
  {
    assert '/' !in "image.gif";
    LastSegmentUnique(path, "image.gif");
  }

  /** The image is posted as `image.gif`, typed `image/gif`, whether the type
      comes from the header or from the guess. */
  lemma WriteMediaExample(f: Fetchers, url: string, img: seq<bv8>)
    requires f.urlPath(url) == "/" + "image.gif"
    requires f.getImage(url) == Some(ImageData(Some("image/gif"), img, 200, 100))
          || (f.getImage(url) == Some(ImageData(None, img, 200, 100)) && f.guessType(url) == Some("image/gif"))
    ensures WriteMedia(f, "image", url)
         == Some(Post(img, Some("image/gif"), "image.gif", MediaInfo(Some("image/gif"), 100, 200)))
  {
    ImageGifName(f.urlPath(url));
  }

  lemma WriteMediaNothing(f: Fetchers, url: string)
    requires f.getImage(url).None?
    ensures WriteMedia(f, "image", url).None?
    ensures WriteMedia(f, "video", url).None?
  {
  }
}
