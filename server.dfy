/** server.py: the routing decision of `PM25Handler.do_GET` and the
    content-type choice of `serve_file`, on the already percent-decoded
    request path. */
module Server {
  import opened Records
  import opened Strings

  /** Drops exactly one leading `/`. */
  function StripLeadingSlash(path: string): (r: string)
    ensures StartsWith(path, "/") ==> "/" + r == path
    ensures !StartsWith(path, "/") ==> r == path
  {
    if StartsWith(path, "/") then path[1..] else path
  }

  /** A second leading slash survives the strip. */
  lemma OnlyOneSlashStripped(rest: string)
    ensures StripLeadingSlash("//" + rest) == "/" + rest
  {
    assert ("//" + rest)[1..] == "/" + rest;
  }

  /** The arguments of one `serve_file` call; `contentType` is None when
      the type is left to inference. */
  datatype ServeCall = ServeCall(file: string, contentType: Option<string>)

  predicate IsPrefixRoute(path: string) {
    StartsWith(path, "frontend/") || StartsWith(path, "processed/")
    || StartsWith(path, "overlays/") || StartsWith(path, "raw_data/")
  }

  /** The first two characters of `s`, which `StartsWith` fixes; used to
      tell the routes apart. */
  lemma StartsWithFirstTwo(s: string, prefix: string)
    requires StartsWith(s, prefix) && |prefix| > 1
    ensures s[0] == prefix[0] && s[1] == prefix[1]
  {
    assert s[..|prefix|][0] == s[0] && s[..|prefix|][1] == s[1];
  }

  /** No path matches two routes of the chain, so the order of the tests
      does not matter. */
  lemma RoutesExclusive(path: string)
    ensures IsPrefixRoute(path) ==> path !in {"", "index.html", "assets.json", "favicon.ico"}
    ensures StartsWith(path, "frontend/") ==> !StartsWith(path, "processed/") && !StartsWith(path, "overlays/") && !StartsWith(path, "raw_data/")
    ensures StartsWith(path, "processed/") ==> !StartsWith(path, "overlays/") && !StartsWith(path, "raw_data/")
    ensures StartsWith(path, "overlays/") ==> !StartsWith(path, "raw_data/")
  {
    var prefixes := ["frontend/", "processed/", "overlays/", "raw_data/"];
    forall pre | pre in prefixes && StartsWith(path, pre) ensures path[0] == pre[0] && path[1] == pre[1] {
      StartsWithFirstTwo(path, pre);
    }
  }

  /** The if/elif chain of do_GET on the stripped path. */
  function Route(path: string): (r: ServeCall)
    ensures path == "" || path == "index.html" ==> r == ServeCall("frontend/index.html", Some("text/html"))
    ensures path == "assets.json" ==> r == ServeCall("assets.json", Some("application/json"))
    ensures path == "favicon.ico" ==> r == ServeCall("frontend/favicon.ico", Some("image/x-icon"))
    ensures StartsWith(path, "frontend/") ==> r == ServeCall(path, None)
    ensures StartsWith(path, "processed/") ==> r == ServeCall(path, Some("image/tiff"))
    ensures StartsWith(path, "overlays/") ==> r == ServeCall(path, Some("image/png"))
    ensures StartsWith(path, "raw_data/") ==> r == ServeCall(path, Some("application/json"))
    ensures path !in {"", "index.html", "assets.json", "favicon.ico"} && !IsPrefixRoute(path) ==> r == ServeCall(path, None)
    ensures path !in {"", "index.html", "favicon.ico"} ==> r.file == path
  {
    RoutesExclusive(path);
    if path == "" || path == "index.html" then ServeCall("frontend/index.html", Some("text/html"))
    else if path == "assets.json" then ServeCall("assets.json", Some("application/json"))
    else if StartsWith(path, "frontend/") then ServeCall(path, None)
    else if StartsWith(path, "processed/") then ServeCall(path, Some("image/tiff"))
    else if StartsWith(path, "overlays/") then ServeCall(path, Some("image/png"))
    else if StartsWith(path, "raw_data/") then ServeCall(path, Some("application/json"))
    else if path == "favicon.ico" then ServeCall("frontend/favicon.ico", Some("image/x-icon"))
    else ServeCall(path, None)
  }

  /** The content types serve_file can send. */
  predicate KnownType(t: string) {
    t in {"text/html", "application/javascript", "text/css", "application/json",
          "image/tiff", "image/png", "application/octet-stream"}
  }

  /** The last character of `s`, which `EndsWith` fixes for any non-empty
      suffix; used to tell the extensions apart. */
  lemma EndsWithLast(s: string, suffix: string)
    requires EndsWith(s, suffix) && |suffix| > 0
    ensures s[|s| - 1] == suffix[|suffix| - 1]
  {
    assert s[|s| - |suffix|..][|suffix| - 1] == s[|s| - 1];
  }

  /** The second-to-last character, likewise. */
  lemma EndsWithSecondLast(s: string, suffix: string)
    requires EndsWith(s, suffix) && |suffix| > 1
    ensures s[|s| - 2] == suffix[|suffix| - 2]
  {
    assert s[|s| - |suffix|..][|suffix| - 2] == s[|s| - 2];
  }

  /** The extension chain of serve_file. */
  function InferContentType(f: string): (t: string)
    ensures KnownType(t)
    ensures EndsWith(f, ".html") ==> t == "text/html"
    ensures EndsWith(f, ".js") ==> t == "application/javascript"
    ensures EndsWith(f, ".css") ==> t == "text/css"
    ensures EndsWith(f, ".json") ==> t == "application/json"
    ensures EndsWith(f, ".tiff") || EndsWith(f, ".tif") ==> t == "image/tiff"
    ensures EndsWith(f, ".png") ==> t == "image/png"
    ensures t == "application/octet-stream" <==>
      !(EndsWith(f, ".html") || EndsWith(f, ".js") || EndsWith(f, ".css") || EndsWith(f, ".json")
        || EndsWith(f, ".tiff") || EndsWith(f, ".tif") || EndsWith(f, ".png"))
  {
    ExtensionsExclusive(f);
    if EndsWith(f, ".html") then "text/html"
    else if EndsWith(f, ".js") then "application/javascript"
    else if EndsWith(f, ".css") then "text/css"
    else if EndsWith(f, ".json") then "application/json"
    else if EndsWith(f, ".tiff") || EndsWith(f, ".tif") then "image/tiff"
    else if EndsWith(f, ".png") then "image/png"
    else "application/octet-stream"
  }

  /** No name ends in two of the extensions the chain tests, so the order
      of the tests does not matter. */
  lemma ExtensionsExclusive(f: string)
    ensures EndsWith(f, ".html") ==>
      (!EndsWith(f, ".js") && !EndsWith(f, ".css") && !EndsWith(f, ".json")
       && !EndsWith(f, ".tiff") && !EndsWith(f, ".tif") && !EndsWith(f, ".png"))
    ensures EndsWith(f, ".js") ==>
      (!EndsWith(f, ".css") && !EndsWith(f, ".json")
       && !EndsWith(f, ".tiff") && !EndsWith(f, ".tif") && !EndsWith(f, ".png"))
    ensures EndsWith(f, ".css") ==> !EndsWith(f, ".json") && !EndsWith(f, ".tiff") && !EndsWith(f, ".tif") && !EndsWith(f, ".png")
    ensures EndsWith(f, ".json") ==> !EndsWith(f, ".tiff") && !EndsWith(f, ".tif") && !EndsWith(f, ".png")
    ensures EndsWith(f, ".tiff") || EndsWith(f, ".tif") ==> !EndsWith(f, ".png")
  {
    var exts := [".html", ".js", ".css", ".json", ".tiff", ".tif", ".png"];
    forall e | e in exts && EndsWith(f, e) ensures f[|f| - 1] == e[|e| - 1] && f[|f| - 2] == e[|e| - 2] {
      EndsWithLast(f, e);
      EndsWithSecondLast(f, e);
    }
  }

  /** The type serve_file sends: an explicit one is never replaced. */
  function ContentTypeOf(call: ServeCall): (t: string)
    ensures call.contentType.Some? ==> t == call.contentType.value
    ensures call.contentType.None? ==> t == InferContentType(call.file) && KnownType(t)
  {
    match call.contentType
    case Some(t) => t
    case None => InferContentType(call.file)
  }

  datatype Response = NotFound(file: string) | Served(fullPath: string, contentType: string)

  /** do_GET then serve_file, with `onDisk` the set of paths that
      `os.path.exists` accepts. */
  function DoGet(directory: string, decodedPath: string, onDisk: set<string>): (r: Response)
    ensures var call := Route(StripLeadingSlash(decodedPath));
      var full := PathJoin(directory, call.file);
      (r.NotFound? <==> full !in onDisk)
      && (r.NotFound? ==> r.file == call.file)
      && (r.Served? ==> r.fullPath == full && r.contentType == ContentTypeOf(call))
  {
    var call := Route(StripLeadingSlash(decodedPath));
    var full := PathJoin(directory, call.file);
    if full !in onDisk then NotFound(call.file) else Served(full, ContentTypeOf(call))
  }

  /** A file under `overlays/` is always sent as PNG, whatever its
      extension. */
  lemma OverlaysServedAsPng(directory: string, rest: string, onDisk: set<string>)
    requires PathJoin(directory, "overlays/" + rest) in onDisk
    ensures DoGet(directory, "/overlays/" + rest, onDisk) == Served(PathJoin(directory, "overlays/" + rest), "image/png")
  {
    assert ("/" + ("overlays/" + rest))[1..] == "overlays/" + rest;
    assert "/overlays/" + rest == "/" + ("overlays/" + rest);
    assert StartsWith("overlays/" + rest, "overlays/");
  }

  /** A file under `raw_data/` is always sent as JSON, whatever its
      extension. */
  lemma RawDataServedAsJson(directory: string, rest: string, onDisk: set<string>)
    requires PathJoin(directory, "raw_data/" + rest) in onDisk
    ensures DoGet(directory, "/raw_data/" + rest, onDisk) == Served(PathJoin(directory, "raw_data/" + rest), "application/json")
  {
    assert ("/" + ("raw_data/" + rest))[1..] == "raw_data/" + rest;
    assert "/raw_data/" + rest == "/" + ("raw_data/" + rest);
    assert StartsWith("raw_data/" + rest, "raw_data/");
  }

  /** A request whose decoded path starts with two slashes (as `/%2Fx`
      decodes to `//x`; a raw `//x` would be read as a network location)
      keeps one after the strip, and `os.path.join` then discards the
      served directory: the file looked up and sent is the absolute path
      itself. */
  lemma AbsolutePathLeavesDirectory(directory: string, rest: string, onDisk: set<string>)
    requires "/" + rest in onDisk
    ensures DoGet(directory, "//" + rest, onDisk) == Served("/" + rest, InferContentType("/" + rest))
  {
    OnlyOneSlashStripped(rest);
    var p := "/" + rest;
    assert StartsWith(p, "/");
    assert !IsPrefixRoute(p) by {
      var prefixes := ["frontend/", "processed/", "overlays/", "raw_data/"];
      forall pre | pre in prefixes && StartsWith(p, pre) ensures false {
        StartsWithFirstTwo(p, pre);
      }
    }
    assert p[0] == '/';
    assert p !in {"", "index.html", "assets.json", "favicon.ico"};
  }
}
