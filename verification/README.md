# Verified model of the ahmt.me CDN edge functions

The site is served from a storage bucket behind a CDN. Two small edge
functions run on each viewer request before the cache lookup. This project
models both in Dafny and proves what they do.

- **Locale redirector** (`redirect_home.js`). It answers every request with
  `302 Found`. The `location` header points at `https://en.<host>`. It points
  at `https://tr.<host>` instead when the request has an `accept-language`
  header whose raw value contains the characters `tr`. Module `RedirectHome`
  models it as a pure function from the request's headers to a `Response`
  value. Header names are lower-case and each header holds one value.
  Because it is a function, running it twice on the same headers gives the
  same response.
- **URI normaliser** (`url_rewrite_append_index.js`). It rewrites the request
  path in place so that directory-style paths and paths without an extension
  map onto a stored `index.html`. Module `UrlRewriteAppendIndex` models the
  request as a `Request` class with `uri` and `headers` fields. `Handler` is a
  method that may modify only `request.uri` and returns the same object. The
  function `Rewritten` specifies the new `uri`.
- Both handlers use JavaScript's `String.prototype.includes`, and the
  normaliser also uses `endsWith`. Module `JsString` models these once.
  `Includes` is a left-to-right scan. It is proved equal to a
  quantifier-based reference, `Occurs`: the pattern appears at some index.

Design points the proofs make explicit:

- The redirector's test is a case-sensitive substring search. It is not the
  language-range matching of section 12.5.4 of RFC 9110. Upper-case `TR`
  never selects Turkish. A value that lists Turkish as not acceptable
  (`tr;q=0`) still selects it.
- The normaliser's two rules are ordered. A path ending in `/` takes rule 1
  even when it has no `.`, so it never gets a doubled slash. The result
  always names a file: it contains `.` and does not end in `/`. That is why
  the rewrite is idempotent.

## Model

| member | source | states |
|---|---|---|
| JsString.IncludesIsOccurs | cloud-functions/redirect_home.js:11 | the `includes` scan is true exactly when the pattern occurs at some index of the string (both directions) |
| JsString.IncludesChar | cloud-functions/url_rewrite_append_index.js:13 | `includes` with a one-character pattern such as `.` is membership of that character |
| JsString.EndsWithChar | cloud-functions/url_rewrite_append_index.js:9 | `endsWith` with a one-character suffix such as `/` holds exactly when the string is non-empty and its last character is that one |
| RedirectHome.Handler | cloud-functions/redirect_home.js:1-25 | with a `host` header present: status 302 "Found"; `location` is the only response header; no `accept-language` gives `https://en.` + host; a value containing `tr` gives `https://tr.` + host; any other value gives `https://en.` + host; `location` is `https://`, then `en.` or `tr.`, then exactly host |
| RedirectHome.NoLowercaseTMeansEnglish | cloud-functions/redirect_home.js:9-14 | the match is case-sensitive: a value with no lower-case `t` always leaves the English target |
| RedirectHome.UpperCaseTrIsEnglish | cloud-functions/redirect_home.js:11 | `accept-language: TR` redirects to `https://en.` + host |
| RedirectHome.TurkishBrowserScenario | cloud-functions/redirect_home.js:4-24 | host `ahmt.me` with `tr-TR,tr;q=0.9` yields exactly the response 302, "Found", `location: https://tr.ahmt.me` |
| RedirectHome.RefusedTurkishStillSelectsTurkish | cloud-functions/redirect_home.js:9-13 | q-values are ignored: `en-US, tr;q=0` still redirects to `https://tr.` + host |
| RedirectHome.EnglishBrowserScenario | cloud-functions/redirect_home.js:7-14 | `en-GB,en;q=0.9` redirects to `https://en.` + host |
| UrlRewriteAppendIndex.Rewritten | cloud-functions/url_rewrite_append_index.js:9-15 | a path that already names a file is unchanged; any other path becomes the path without its trailing `/` followed by `/index.html`; the result always names a file |
| UrlRewriteAppendIndex.Handler | cloud-functions/url_rewrite_append_index.js:4-18 | returns the same request object; its new `uri` is `Rewritten` of the old one; `headers` are unchanged, and the frame allows no other change |
| UrlRewriteAppendIndex.DirectoryGetsIndex | cloud-functions/url_rewrite_append_index.js:9-10 | a path ending in `/` gets `index.html` appended, whether or not it contains `.` |
| UrlRewriteAppendIndex.ExtensionlessGetsIndex | cloud-functions/url_rewrite_append_index.js:12-14 | a path that does not end in `/` and has no `.` gets `/index.html` appended |
| UrlRewriteAppendIndex.RewriteExtends | cloud-functions/url_rewrite_append_index.js:9-15 | the old path is a prefix of the new one, and the new path is either the old one or ends in `index.html` |
| UrlRewriteAppendIndex.RewriteIdempotent | cloud-functions/url_rewrite_append_index.js:9-15 | rewriting twice gives the same path as rewriting once |
| UrlRewriteAppendIndex.SpotChecks | cloud-functions/url_rewrite_append_index.js:9-17 | `/blog/` and `/blog` become `/blog/index.html`; `/` and the empty path become `/index.html`; `/blog/post.html` and `/assets/style.css` are unchanged |

## Left out

- lib/cloudfront.ts, lib/ahmt-me-cdk-stack.ts and bin/ahmt-me-cdk.ts are not part of this model. They declare the bucket, distributions, certificate lookup and IAM role for a third-party provisioning library, or read the environment and write to the console.
- The edge platform's invocation, concurrency and failure handling are external. Each handler is a single-invocation transform.
- The event wrapper `{ request: … }` is reduced to what each handler reads. For the redirector that is the header map; for the normaliser it is the request object.
- Headers are modelled as lower-case name to one string value. The platform's `{ value }` wrapper objects and multi-value headers are not modelled. A present header's wrapper is always truthy in JavaScript, so the check at redirect_home.js:9 is modelled as presence.
- A missing `host` header makes the JavaScript throw a TypeError at redirect_home.js:4. The model states this as a precondition of `RedirectHome.Handler` and does not model the thrown error.
- JavaScript strings are UTF-16 code units and Dafny's `char` is a Unicode scalar value. The patterns searched for (`tr`, `.`, `/`) are ASCII, and ASCII code units never occur inside a surrogate pair, so the searches agree.
- Real HTTP semantics are not modelled, because the code does not implement them: `Accept-Language` language tags and q-values, and `Host` validation.
