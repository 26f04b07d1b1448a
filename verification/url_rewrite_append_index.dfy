/** The URI normaliser: a viewer-request edge function that maps directory-style
    and extension-less paths onto the `index.html` object a static-site
    generator stores for them, and passes every other request through. */
module UrlRewriteAppendIndex {
  import opened JsString

  /** The viewer request the edge platform hands over. The handler rewrites
      `uri` in place and leaves everything else as it found it. */
  class Request {
    var uri: string
    var headers: map<string, string>

    constructor (uri: string, headers: map<string, string>)
      ensures this.uri == uri && this.headers == headers
    {
      this.uri := uri;
      this.headers := headers;
    }
  }

  /** A path the origin can serve as it is: it has a `.` somewhere and does
      not end in `/`. */
  ghost predicate NamesFile(uri: string)
  {
    '.' in uri && !(|uri| > 0 && uri[|uri| - 1] == '/')
  }

  /** The path with one trailing `/` removed, if it has one. */
  ghost function WithoutTrailingSlash(uri: string): string
  {
    if |uri| > 0 && uri[|uri| - 1] == '/' then uri[..|uri| - 1] else uri
  }

  /** The new `uri` as a function of the old one: the two ordered rules. */
  function Rewritten(uri: string): (r: string)
    ensures NamesFile(uri) ==> r == uri
    ensures !NamesFile(uri) ==> r == WithoutTrailingSlash(uri) + "/index.html"
    ensures NamesFile(r)
  {
    EndsWithChar(uri, '/');
    IncludesChar(uri, '.');
    if EndsWith(uri, "/") then
      uri + "index.html"
    else if !Includes(uri, ".") then
      uri + "/index.html"
    else
      uri
  }

  /** `handler(event)` on the event's request: rewrites `uri` in place and
      returns the same request object. */
  method Handler(request: Request) returns (r: Request)
    modifies request`uri
    ensures r == request
    ensures request.uri == Rewritten(old(request.uri))
    ensures request.headers == old(request.headers)
  {
    var uri := request.uri;
    if EndsWith(uri, "/") {
      request.uri := request.uri + "index.html";
    } else if !Includes(uri, ".") {
      request.uri := request.uri + "/index.html";
    }
    r := request;
  }

  /** Rule 1: a path ending in `/` gets `index.html` appended, with no second
      `/`, whether or not it contains a `.`. */
  lemma DirectoryGetsIndex(uri: string)
    requires |uri| > 0 && uri[|uri| - 1] == '/'
    ensures Rewritten(uri) == uri + "index.html"
  {
  }

  /** Rule 2: a path that does not end in `/` and has no `.` gets
      `/index.html` appended. */
  lemma ExtensionlessGetsIndex(uri: string)
    requires !(|uri| > 0 && uri[|uri| - 1] == '/') && '.' !in uri
    ensures Rewritten(uri) == uri + "/index.html"
  {
  }

  /** The old path is always a prefix of the new one, and a changed path ends
      in `index.html`. */
  lemma {:induction false} RewriteExtends(uri: string)
    ensures uri <= Rewritten(uri)
    ensures Rewritten(uri) == uri || EndsWith(Rewritten(uri), "index.html")
  {
    var r := Rewritten(uri);
    if !NamesFile(uri) {
      var added: string;
      if |uri| > 0 && uri[|uri| - 1] == '/' {
        DirectoryGetsIndex(uri);
        added := "index.html";
      } else {
        ExtensionlessGetsIndex(uri);
        added := "/index.html";
      }
      assert r == uri + added;
      assert r[|r| - 10..] == added[|added| - 10..] == "index.html";
    }
  }

  /** Applying the handler twice gives the same `uri` as applying it once. */
  lemma {:induction false} RewriteIdempotent(uri: string)
    ensures Rewritten(Rewritten(uri)) == Rewritten(uri)
  {
  }

  /** The paths the site relies on. */
  lemma SpotChecks()
    ensures Rewritten("/blog/") == "/blog/index.html"
    ensures Rewritten("/blog") == "/blog/index.html"
    ensures Rewritten("/blog/post.html") == "/blog/post.html"
    ensures Rewritten("/") == "/index.html"
    ensures Rewritten("/assets/style.css") == "/assets/style.css"
    ensures Rewritten("") == "/index.html"
  {
    DirectoryGetsIndex("/blog/");
    DirectoryGetsIndex("/");
    ExtensionlessGetsIndex("/blog");
    ExtensionlessGetsIndex("");
    assert NamesFile("/blog/post.html") by {
      assert "/blog/post.html"[10] == '.';
    }
    assert NamesFile("/assets/style.css") by {
      assert "/assets/style.css"[13] == '.';
    }
  }
}
