/**
 * The local static-asset server of the back office: it strips the
 * "/backoffice" prefix, serves the single-page index for the application's
 * page routes, and sends any other file with a content type chosen by its
 * extension. The asset directory is a map from file path to content; the
 * URL is taken after `decodeURIComponent`.
 */
module AssetServer {
  const ASSET_PATH: string := "../frontend/backoffice"
  const PREFIX: string := "/backoffice"
  const INDEX: string := "/index.html"
  const DEFAULT_CONTENT_TYPE: string := "application/octet-stream"

  /** `pagePaths`: the routes the single-page application handles itself. */
  const PAGE_PATHS: seq<string> := ["", "/", "/flight-scheduling", "/reservations"]

  datatype MimeType = MimeType(extension: string, contentType: string)

  /** `mimeTypesPerExtension`, in the order `Object.entries` yields it. */
  const MIME_TYPES: seq<MimeType> := [
    MimeType(".js", "text/javascript"),
    MimeType(".html", "text/html"),
    MimeType(".css", "text/css"),
    MimeType(".webp", "image/webp"),
    MimeType(".svg", "image/svg")
  ]

  predicate StartsWith(s: string, prefix: string) {
    |prefix| <= |s| && s[..|prefix|] == prefix
  }

  predicate EndsWith(s: string, suffix: string) {
    |suffix| <= |s| && s[|s| - |suffix|..] == suffix
  }

  /** No table entry before k matches the path. */
  predicate NoMatchBefore(path: string, k: int) {
    forall j :: 0 <= j < k && j < |MIME_TYPES| ==> !EndsWith(path, MIME_TYPES[j].extension)
  }

  /**
   * `getContentType`: the content type of the first table entry whose
   * extension ends the path, or "application/octet-stream" when none does.
   */
  method GetContentType(path: string) returns (contentType: string)
    ensures (exists k :: 0 <= k < |MIME_TYPES| && NoMatchBefore(path, k) && EndsWith(path, MIME_TYPES[k].extension)
                         && contentType == MIME_TYPES[k].contentType)
            || (NoMatchBefore(path, |MIME_TYPES|) && contentType == DEFAULT_CONTENT_TYPE)
    ensures contentType == ContentTypeOf(path)
  {
    var i := 0;
    while i < |MIME_TYPES|
      invariant 0 <= i <= |MIME_TYPES|
      invariant NoMatchBefore(path, i)
      invariant FirstMatchFrom(path, 0) == FirstMatchFrom(path, i)
    {
      if EndsWith(path, MIME_TYPES[i].extension) {
        return MIME_TYPES[i].contentType;
      }
      i := i + 1;
    }
    return DEFAULT_CONTENT_TYPE;
  }

  /** The index of the first table entry from `from` on that matches the path, or |MIME_TYPES|. */
  function FirstMatchFrom(path: string, from: nat): (k: nat)
    requires from <= |MIME_TYPES|
    ensures from <= k <= |MIME_TYPES|
    ensures forall j :: from <= j < k ==> !EndsWith(path, MIME_TYPES[j].extension)
    ensures k < |MIME_TYPES| ==> EndsWith(path, MIME_TYPES[k].extension)
    decreases |MIME_TYPES| - from
  {
    if from == |MIME_TYPES| then from
    else if EndsWith(path, MIME_TYPES[from].extension) then from
    else FirstMatchFrom(path, from + 1)
  }

  /** The content type `getContentType` picks, as a function. */
  function ContentTypeOf(path: string): (contentType: string)
    ensures NoMatchBefore(path, |MIME_TYPES|) <==> contentType == DEFAULT_CONTENT_TYPE
  {
    var k := FirstMatchFrom(path, 0);
    if k < |MIME_TYPES| then MIME_TYPES[k].contentType else DEFAULT_CONTENT_TYPE
  }

  /** A path ending with two suffixes: the shorter suffix ends the longer one. */
  lemma SuffixOfSuffix(path: string, a: string, b: string)
    requires EndsWith(path, a) && EndsWith(path, b) && |a| <= |b|
    ensures EndsWith(b, a)
  {
    assert b[|b| - |a|..] == path[|path| - |a|..];
  }

  /** No extension of the table ends another one. */
  lemma ExtensionsUnrelated(j: nat, k: nat)
    requires j < |MIME_TYPES| && k < |MIME_TYPES| && j != k
    ensures !EndsWith(MIME_TYPES[k].extension, MIME_TYPES[j].extension)
  {
    var a, b := MIME_TYPES[j].extension, MIME_TYPES[k].extension;
    if |a| <= |b| {
      // only ".js" and ".css" end alike, and they differ one letter earlier
      if j == 0 && k == 2 {
        assert b[|b| - 2] != a[|a| - 2];
      } else {
        assert b[|b| - 1] != a[|a| - 1];
      }
    }
  }

  /**
   * The content type depends on the extension alone: a path ending with an
   * extension of the table gets that extension's type, whatever its place
   * in the table.
   */
  lemma ContentTypeByExtension(path: string, k: nat)
    requires k < |MIME_TYPES| && EndsWith(path, MIME_TYPES[k].extension)
    ensures ContentTypeOf(path) == MIME_TYPES[k].contentType
  {
    var first := FirstMatchFrom(path, 0);
    if first != k {
      assert first < k;
      var a, b := MIME_TYPES[first].extension, MIME_TYPES[k].extension;
      if |a| <= |b| {
        SuffixOfSuffix(path, a, b);
        ExtensionsUnrelated(first, k);
      } else {
        SuffixOfSuffix(path, b, a);
        ExtensionsUnrelated(k, first);
      }
    }
  }

  /** Without a known extension the content is sent as a byte stream. */
  lemma ContentTypeDefault(path: string)
    requires forall k :: 0 <= k < |MIME_TYPES| ==> !EndsWith(path, MIME_TYPES[k].extension)
    ensures ContentTypeOf(path) == DEFAULT_CONTENT_TYPE
  {
  }

  /**
   * The path `handler` reads: the URL without one leading "/backoffice",
   * and the index page for the application's routes.
   */
  function ServedPath(url: string): (path: string)
    ensures var stripped := if StartsWith(url, PREFIX) then url[|PREFIX|..] else url;
      (stripped in PAGE_PATHS ==> path == INDEX)
      && (stripped !in PAGE_PATHS ==> path == stripped)
    ensures !StartsWith(url, PREFIX) && url !in PAGE_PATHS ==> path == url
  {
    var stripped := if StartsWith(url, PREFIX) then url[|PREFIX|..] else url;
    if stripped in PAGE_PATHS then INDEX else stripped
  }

  /**
   * The back office's routes, with or without the prefix, all serve the
   * index; assets are served from under the prefix or without it alike; and
   * the prefix is stripped only once.
   */
  lemma ServedPathExamples()
    ensures ServedPath("/backoffice") == INDEX
    ensures ServedPath("/backoffice/") == INDEX
    ensures ServedPath("/backoffice/flight-scheduling") == INDEX
    ensures ServedPath("/reservations") == INDEX
    ensures ServedPath("/") == INDEX
    ensures ServedPath("/backoffice/components.js") == "/components.js"
    ensures ServedPath("/components.js") == "/components.js"
    ensures ServedPath("/backoffice/backoffice") == "/backoffice"
  {
    assert StartsWith("/backoffice", PREFIX);
    assert "/backoffice"[|PREFIX|..] == "";
    assert StartsWith("/backoffice/", PREFIX);
    assert "/backoffice/"[|PREFIX|..] == "/";
    assert StartsWith("/backoffice/flight-scheduling", PREFIX);
    assert "/backoffice/flight-scheduling"[|PREFIX|..] == "/flight-scheduling";
    assert !StartsWith("/reservations", PREFIX) by { assert "/reservations"[1] != PREFIX[1]; }
    assert !StartsWith("/", PREFIX);
    assert StartsWith("/backoffice/components.js", PREFIX);
    assert "/backoffice/components.js"[|PREFIX|..] == "/components.js";
    assert "/components.js" !in PAGE_PATHS by {
      assert "/components.js" != "/flight-scheduling" by { assert "/components.js"[1] != "/flight-scheduling"[1]; }
      assert "/components.js" != "/reservations" by { assert "/components.js"[1] != "/reservations"[1]; }
    }
    assert !StartsWith("/components.js", PREFIX) by { assert "/components.js"[2] != PREFIX[2]; }
    assert StartsWith("/backoffice/backoffice", PREFIX);
    assert "/backoffice/backoffice"[|PREFIX|..] == "/backoffice";
    assert "/backoffice" !in PAGE_PATHS by {
      assert "/backoffice" != "/flight-scheduling" by { assert "/backoffice"[1] != "/flight-scheduling"[1]; }
      assert "/backoffice" != "/reservations" by { assert "/backoffice"[1] != "/reservations"[1]; }
    }
  }

  datatype Response = Response(status: int, contentType: string, body: seq<char>)

  /**
   * `handler`: reads the served path below the asset directory. A file that
   * exists is sent with status 200 and the content type of its path; a read
   * that fails is answered 404, "not found", as plain text.
   */
  method Handler(files: map<string, seq<char>>, url: string) returns (response: Response)
    ensures ASSET_PATH + ServedPath(url) in files ==>
      response == Response(200, ContentTypeOf(ServedPath(url)), files[ASSET_PATH + ServedPath(url)])
    ensures ASSET_PATH + ServedPath(url) !in files ==> response == Response(404, "text/plain", "not found")
  {
    var path := url;
    if StartsWith(path, PREFIX) {
      path := path[|PREFIX|..];
    }
    if path in PAGE_PATHS {
      path := INDEX;
    }
    var file := ASSET_PATH + path;
    if file in files {
      var contentType := GetContentType(path);
      response := Response(200, contentType, files[file]);
    } else {
      response := Response(404, "text/plain", "not found");
    }
  }
}
