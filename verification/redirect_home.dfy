/** The locale redirector: a viewer-request edge function that answers every
    request with a 302 redirect to the English or the Turkish subdomain of the
    requested host. */
module RedirectHome {
  import opened JsString

  /** An edge-function response: status line and headers (lower-case name to value). */
  datatype Response = Response(statusCode: int, statusDescription: string, headers: map<string, string>)

  const EnglishPrefix := "https://en."
  const TurkishPrefix := "https://tr."

  /** The request asks for the Turkish site: an `accept-language` header whose
      raw value contains the two characters "tr" anywhere, in that case. */
  ghost predicate AsksForTurkish(headers: map<string, string>)
  {
    "accept-language" in headers && Occurs(headers["accept-language"], "tr")
  }

  /** The handler, over the request's headers. The `host` header is read
      without a guard, so callers must supply it. */
  function Handler(headers: map<string, string>): (r: Response)
    requires "host" in headers
    ensures r.statusCode == 302 && r.statusDescription == "Found"
    ensures r.headers.Keys == {"location"}
    ensures "accept-language" !in headers ==> r.headers["location"] == EnglishPrefix + headers["host"]
    ensures AsksForTurkish(headers) ==> r.headers["location"] == TurkishPrefix + headers["host"]
    ensures !AsksForTurkish(headers) ==> r.headers["location"] == EnglishPrefix + headers["host"]
    ensures var location := r.headers["location"];
      && |location| == 11 + |headers["host"]|
      && location[..8] == "https://"
      && location[8..11] in {"en.", "tr."}
      && location[11..] == headers["host"]
  {
    var host := headers["host"];
    var enUrl := EnglishPrefix + host;
    var trUrl := TurkishPrefix + host;
    var redirectUrl :=
      if "accept-language" in headers then
        var acceptLang := headers["accept-language"];
        IncludesIsOccurs(acceptLang, "tr");
        if Includes(acceptLang, "tr") then trUrl else enUrl
      else
        enUrl;
    Response(302, "Found", map["location" := redirectUrl])
  }

  /** The match is case-sensitive: a language value without a lower-case `t`
      (such as "TR" or "EN-US") never selects the Turkish site. */
  lemma {:induction false} NoLowercaseTMeansEnglish(headers: map<string, string>)
    requires "host" in headers && "accept-language" in headers
    requires 't' !in headers["accept-language"]
    ensures Handler(headers).headers["location"] == EnglishPrefix + headers["host"]
  {
    var acceptLang := headers["accept-language"];
    forall i: int
      ensures !OccursAt(acceptLang, "tr", i)
    {
      if 0 <= i && i + 2 <= |acceptLang| {
        assert acceptLang[i..i + 2][0] == acceptLang[i] != 't';
      }
    }
    assert !Occurs(acceptLang, "tr");
  }

  /** "TR" alone, in upper case, leaves the English target in place. */
  lemma UpperCaseTrIsEnglish(host: string)
    ensures Handler(map["host" := host, "accept-language" := "TR"]).headers["location"] == "https://en." + host
  {
    NoLowercaseTMeansEnglish(map["host" := host, "accept-language" := "TR"]);
  }

  /** A Turkish-speaking browser on the site's own host is sent to the Turkish subdomain. */
  lemma TurkishBrowserScenario()
    ensures Handler(map["host" := "ahmt.me", "accept-language" := "tr-TR,tr;q=0.9"])
         == Response(302, "Found", map["location" := "https://tr.ahmt.me"])
  {
    assert OccursAt("tr-TR,tr;q=0.9", "tr", 0);
    assert TurkishPrefix + "ahmt.me" == "https://tr.ahmt.me";
  }

  /** The test is a raw substring search, not language-range matching: a
      browser that marks Turkish as not acceptable at all (`q=0`) is still
      sent to the Turkish subdomain. */
  lemma RefusedTurkishStillSelectsTurkish(host: string)
    ensures Handler(map["host" := host, "accept-language" := "en-US, tr;q=0"]).headers["location"] == "https://tr." + host
  {
    assert OccursAt("en-US, tr;q=0", "tr", 7);
  }

  /** A browser asking only for English is sent to the English subdomain. */
  lemma EnglishBrowserScenario(host: string)
    ensures Handler(map["host" := host, "accept-language" := "en-GB,en;q=0.9"]).headers["location"] == "https://en." + host
  {
    NoLowercaseTMeansEnglish(map["host" := host, "accept-language" := "en-GB,en;q=0.9"]);
  }
}
