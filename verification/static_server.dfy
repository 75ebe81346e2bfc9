/** The smoke tester's static file server: how one request's pathname
    becomes a status, a content type and a body. Path joining, the
    extension split and the filesystem are inputs. */
module StaticServer {
  import opened JsValue
  import opened JsString

  /** What the handler consults: the repository root string, `path.join`
      applied to it, `fs.existsSync`, `fs.readFile` (`None` on error) and
      `path.extname`. */
  datatype ServerFs = ServerFs(
    root: string,
    join: string -> string,
    isPresent: string -> bool,
    read: string -> Option<string>,
    extname: string -> string)

  /** `res.writeHead(status[, headers])` followed by `res.end(body)`. */
  datatype Response = Response(status: int, contentType: Option<string>, body: string)

  /** The pathname `/` is served as `/index.html`. */
  function RequestPath(pathname: string): string {
    if pathname == "/" then "/index.html" else pathname
  }

  /** The traversal guard: a plain prefix test on the joined path, not a
      directory-containment test. */
  predicate Forbidden(root: string, filePath: string) {
    !StartsWith(filePath, root)
  }

  /** A sibling directory whose name extends the root's passes the guard. */
  lemma SiblingPassesGuard()
    ensures !Forbidden("/srv/game-center", "/srv/game-center-old/secret.txt")
  {
    assert "/srv/game-center-old/secret.txt"[..16] == "/srv/game-center";
  }

  /** The extension table. */
  const ContentTypes: map<string, string> := map[
    ".html" := "text/html",
    ".js" := "text/javascript",
    ".json" := "application/json",
    ".css" := "text/css",
    ".png" := "image/png",
    ".jpg" := "image/jpeg",
    ".gif" := "image/gif",
    ".svg" := "image/svg+xml"
  ]

  /** `contentTypes[ext] || 'text/plain'`: the table's entry, or the
      fallback for an extension the table lacks (including ""). */
  function ContentType(ext: string): (r: string)
    ensures ext in ContentTypes ==> r == ContentTypes[ext]
    ensures ext !in ContentTypes ==> r == "text/plain"
    ensures r == "text/plain" <==> ext !in ContentTypes
  {
    var entry := if ext in ContentTypes then Str(ContentTypes[ext]) else Undefined;
    var chosen := Or(entry, Str("text/plain"));
    chosen.s
  }

  /** The table has exactly the eight extensions. */
  lemma ContentTypeTable()
    ensures ContentTypes.Keys == {".html", ".js", ".json", ".css", ".png", ".jpg", ".gif", ".svg"}
    ensures |ContentTypes| == 8
  {
    assert ContentTypes.Keys == {".html", ".js", ".json", ".css", ".png", ".jpg", ".gif", ".svg"};
  }

  /** The request handler for one pathname. */
  function Handle(pathname: string, fs: ServerFs): (r: Response)
    ensures var filePath := fs.join(RequestPath(pathname));
            && (r.status == 403 <==> Forbidden(fs.root, filePath))
            && (r.status == 404 <==> !Forbidden(fs.root, filePath) && !fs.isPresent(filePath))
            && (r.status == 500 <==> !Forbidden(fs.root, filePath) && fs.isPresent(filePath)
                                       && fs.read(filePath).None?)
            && (r.status == 200 <==> !Forbidden(fs.root, filePath) && fs.isPresent(filePath)
                                       && fs.read(filePath).Some?)
            && (r.status == 200 ==> r.body == fs.read(filePath).value
                                    && r.contentType == Some(ContentType(fs.extname(filePath))))
            && (r.status != 200 ==> r.contentType == None)
  {
    var filePath := fs.join(RequestPath(pathname));
    if Forbidden(fs.root, filePath) then Response(403, None, "Forbidden")
    else if !fs.isPresent(filePath) then Response(404, None, "Not Found")
    else
      match fs.read(filePath)
      case None => Response(500, None, "Internal Server Error")
      case Some(data) => Response(200, Some(ContentType(fs.extname(filePath))), data)
  }

  /** The guard comes first: a path it rejects is answered 403 whatever
      the filesystem holds. */
  lemma ForbiddenIgnoresFilesystem(pathname: string, fs: ServerFs, other: ServerFs)
    requires other.root == fs.root && other.join == fs.join
    requires Forbidden(fs.root, fs.join(RequestPath(pathname)))
    ensures Handle(pathname, fs) == Handle(pathname, other)
    ensures Handle(pathname, fs).status == 403
  {
  }

  /** `/` and `/index.html` get the same answer; every other pathname
      is joined as it is. */
  lemma RootIsIndex(fs: ServerFs)
    ensures Handle("/", fs) == Handle("/index.html", fs)
    ensures forall p :: p != "/" ==> RequestPath(p) == p
  {
  }
}
