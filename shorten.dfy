/**
 * The decision logic of `handleShorten` (script.js): trimming and validating
 * the two input fields, building the form body, classifying the service's
 * reply, and the effect of all this on the history, the input fields and the
 * in-flight flag (`shortenBtn.disabled`).
 *
 * `isValidUrl` (a `new URL` parse), `encodeURIComponent` and the network call
 * are not modelled: they are the parameters `validUrl`, `encode` and `service`.
 */
module Shorten {
  import opened Wrappers
  import opened JsText
  import opened FormEncoding
  import opened History

  /** A character of the class `[a-zA-Z0-9-_]`. */
  predicate IsSlugChar(c: char) {
    ('a' <= c <= 'z') || ('A' <= c <= 'Z') || ('0' <= c <= '9') || c == '-' || c == '_'
  }

  /** The reference reading of a valid alias: non-empty, and every character from the class. */
  predicate IsValidSlug(s: string) {
    s != [] && forall i :: 0 <= i < |s| ==> IsSlugChar(s[i])
  }

  /** The anchored pattern `^[a-zA-Z0-9-_]+$` matched the way a regex engine walks it: one class character, then either the end or more of the same. */
  predicate MatchesSlugPattern(s: string)
    decreases |s|
  {
    s != [] && IsSlugChar(s[0]) && (|s| == 1 || MatchesSlugPattern(s[1..]))
  }

  /** The pattern accepts exactly the valid aliases. */
  lemma {:induction false} SlugPatternIff(s: string)
    ensures MatchesSlugPattern(s) <==> IsValidSlug(s)
    decreases |s|
  {
    if |s| > 1 {
      SlugPatternIff(s[1..]);
      assert forall i :: 1 <= i < |s| ==> s[i] == s[1..][i - 1];
    }
  }

  /** A valid alias cannot break the form body it is pasted into unencoded. */
  lemma ValidSlugIsFormSafe(s: string)
    requires IsValidSlug(s)
    ensures FormSafe(s)
  {
    assert !IsSlugChar('&') && !IsSlugChar('=');
  }

  /** `validateCustomSlug`: the trimmed alias field matches the pattern. */
  function ValidateCustomSlug(slugValue: string): (ok: bool)
    ensures ok <==> IsValidSlug(Trim(slugValue))
  {
    SlugPatternIff(Trim(slugValue));
    MatchesSlugPattern(Trim(slugValue))
  }

  /** An alias with a space is refused; letters, digits, '-' and '_' are accepted. */
  lemma SlugExamples()
    ensures !ValidateCustomSlug("ab cd")
    ensures ValidateCustomSlug("ab-cd_12")
  {
    TrimUntouched("ab cd");
    TrimUntouched("ab-cd_12");
    assert !IsSlugChar("ab cd"[2]);
  }

  /** Why a request was refused before anything was sent. */
  datatype Rejection = InvalidUrl | InvalidSlug

  /** A request that passed validation: the trimmed URL and the trimmed alias ("" when none). */
  datatype Request = Request(url: string, slug: string)

  /**
   * The two checks ahead of the `try` block: the URL first, then the alias,
   * and the alias only when its trimmed value is non-empty.
   */
  function Validate(urlValue: string, slugValue: string, validUrl: string -> bool): (r: Result<Request, Rejection>)
    ensures !validUrl(Trim(urlValue)) ==> r == Failure(InvalidUrl)
    ensures r == Failure(InvalidSlug) <==> validUrl(Trim(urlValue)) && Trim(slugValue) != [] && !IsValidSlug(Trim(slugValue))
    ensures r.Success? <==> validUrl(Trim(urlValue)) && (Trim(slugValue) == [] || IsValidSlug(Trim(slugValue)))
    ensures r.Success? ==> r.value == Request(Trim(urlValue), Trim(slugValue))
  {
    var url := Trim(urlValue);
    var slug := Trim(slugValue);
    if !validUrl(url) then Failure(InvalidUrl)
    else if slug != [] && !ValidateCustomSlug(slugValue) then Failure(InvalidSlug)
    else Success(Request(url, slug))
  }

  /** The POST body: the encoded URL, then the alias as it is (not encoded) when there is one. */
  function RequestBody(req: Request, encode: string -> string): (body: string)
    ensures "url=" + encode(req.url) <= body
  {
    "url=" + encode(req.url) + (if req.slug != [] then "&custom=" + req.slug else "")
  }

  /** Read back as a form, a body whose encoded URL and alias hold no separator gives its fields back. */
  lemma BodyReadsBack(req: Request, encode: string -> string)
    requires FormSafe(encode(req.url)) && FormSafe(req.slug)
    ensures ParseForm(RequestBody(req, encode))
              == [("url", encode(req.url))] + (if req.slug != [] then [("custom", req.slug)] else [])
  {
    var enc := encode(req.url);
    if req.slug == [] {
      assert RequestBody(req, encode) == "url" + "=" + enc;
      ParseFormOne("url", enc);
    } else {
      assert RequestBody(req, encode) == "url" + "=" + enc + "&" + ("custom" + "=" + req.slug);
      ParseFormCons("url", enc, "custom" + "=" + req.slug);
      ParseFormOne("custom", req.slug);
    }
  }

  /**
   * Read back as a form, the body of a validated request carries the field
   * `url` with the encoded URL and, exactly when an alias was given, the
   * field `custom` with that alias; the unencoded alias does not break the form.
   */
  lemma ValidatedBodyReadsBack(urlValue: string, slugValue: string, validUrl: string -> bool, encode: string -> string)
    requires Validate(urlValue, slugValue, validUrl).Success?
    requires FormSafe(encode(Trim(urlValue)))
    ensures var req := Validate(urlValue, slugValue, validUrl).value;
            ParseForm(RequestBody(req, encode))
              == [("url", encode(req.url))] + (if req.slug != [] then [("custom", req.slug)] else [])
  {
    var req := Validate(urlValue, slugValue, validUrl).value;
    if req.slug != [] {
      ValidSlugIsFormSafe(req.slug);
    }
    BodyReadsBack(req, encode);
  }

  /** A field of the parsed JSON reply as the service documents it: absent, null, or a string. */
  datatype Field = Missing | Null | Text(s: string)

  /** JavaScript truthiness of such a field. */
  predicate Truthy(f: Field) {
    f.Text? && f.s != []
  }

  /**
   * The reply: a parsed JSON body, or the message of what was thrown before
   * the fields could be read (by `fetch`, by `response.json()`, or the
   * TypeError from reading `error` on a body that parses to `null`).
   */
  datatype Response = Reply(error: Field, resultUrl: Field) | Thrown(message: string)

  /** How one attempt that reached the service ends. */
  datatype Outcome = Shortened(originalUrl: string, shortenedUrl: string) | Failed(message: string)

  /** The `catch` block's `error.message || 'Failed to shorten URL'`. */
  function Notice(message: string): (m: string)
    ensures m != []
    ensures message != [] ==> m == message
    ensures message == [] ==> m == "Failed to shorten URL"
  {
    if message == [] then "Failed to shorten URL" else message
  }

  /**
   * The `try` block after the reply arrives: a truthy `error` wins, then a
   * truthy `result_url` succeeds, and anything else fails with
   * "Failed to get shortened URL"; what `fetch` or `response.json()` threw
   * is reported with its own message. Every failure carries a non-empty message.
   */
  function Classify(url: string, resp: Response): (o: Outcome)
    ensures o.Shortened? <==> resp.Reply? && !Truthy(resp.error) && Truthy(resp.resultUrl)
    ensures o.Shortened? ==> o == Shortened(url, resp.resultUrl.s)
    ensures resp.Reply? && Truthy(resp.error) ==> o == Failed(resp.error.s)
    ensures resp.Reply? && !Truthy(resp.error) && !Truthy(resp.resultUrl) ==> o == Failed("Failed to get shortened URL")
    ensures resp.Thrown? ==> o == Failed(Notice(resp.message))
    ensures o.Failed? ==> o.message != []
  {
    match resp
    case Thrown(message) => Failed(Notice(message))
    case Reply(error, resultUrl) =>
      if Truthy(error) then Failed(Notice(error.s))
      else if Truthy(resultUrl) then Shortened(url, resultUrl.s)
      else Failed(Notice("Failed to get shortened URL"))
  }

  /** What one press of the button (or Enter in the URL field) ends in. */
  datatype Attempt = Rejected(reason: Rejection) | Completed(outcome: Outcome)

  /**
   * The form around `handleShorten`: the two input fields, the in-flight flag
   * and the history the page shares.
   */
  class ShortenForm {
    var urlValue: string
    var slugValue: string
    var busy: bool
    const history: HistoryStore

    ghost predicate Valid()
      reads this, history
    {
      history.Valid()
    }

    constructor (history: HistoryStore)
      requires history.Valid()
      ensures Valid()
      ensures this.history == history && urlValue == [] && slugValue == [] && !busy
    {
      this.history := history;
      urlValue, slugValue, busy := [], [], false;
    }

    /** The user types into the two fields. */
    method Enter(url: string, slug: string)
      modifies this
      ensures urlValue == url && slugValue == slug && busy == old(busy)
    {
      urlValue, slugValue := url, slug;
    }

    /**
     * `handleShorten`, run to completion. A rejection returns before the flag
     * is touched; otherwise the flag is set, the body is sent, the reply is
     * classified, only a success inserts into the history and clears the
     * fields, and the flag is cleared on every path out of the `try` block.
     * The method runs as one atomic step, so no caller can observe the flag
     * while it is set; the contract states only where it ends up.
     */
    method HandleShorten(validUrl: string -> bool, encode: string -> string,
                         service: string -> Response, timestamp: string) returns (attempt: Attempt)
      requires Valid()
      modifies this, history
      ensures Valid()
      ensures var v := Validate(old(urlValue), old(slugValue), validUrl);
              if v.Failure? then
                && attempt == Rejected(v.error)
                && busy == old(busy)
              else
                && attempt == Completed(Classify(v.value.url, service(RequestBody(v.value, encode))))
                && !busy
      ensures attempt.Completed? && attempt.outcome.Shortened? ==>
                history.items == Inserted(old(history.items), Record(attempt.outcome.originalUrl, attempt.outcome.shortenedUrl, timestamp))
      ensures attempt.Completed? && attempt.outcome.Shortened? ==> urlValue == [] && slugValue == []
      ensures attempt.Rejected? || attempt.outcome.Failed? ==>
                history.items == old(history.items) && history.stored == old(history.stored)
      ensures attempt.Rejected? || attempt.outcome.Failed? ==> urlValue == old(urlValue) && slugValue == old(slugValue)
    {
      var v := Validate(urlValue, slugValue, validUrl);
      if v.Failure? {
        return Rejected(v.error);
      }
      var req := v.value;
      busy := true;
      // The only suspension point in the source; here the call is atomic.
      var response := service(RequestBody(req, encode));
      var outcome := Classify(req.url, response);
      if outcome.Shortened? {
        history.AddToHistory(outcome.originalUrl, outcome.shortenedUrl, timestamp);
        urlValue, slugValue := [], [];
      }
      busy := false;
      return Completed(outcome);
    }
  }

  /** A fresh page shortens "https://example.com": the pair lands alone at the head of the history. */
  method ScenarioSuccess(validUrl: string -> bool, encode: string -> string, timestamp: string)
    requires validUrl("https://example.com")
  {
    TrimUntouched("https://example.com");
    TrimUntouched("");
    var store := new HistoryStore.Load(None);
    var form := new ShortenForm(store);
    form.Enter("https://example.com", "");
    var attempt := form.HandleShorten(validUrl, encode, _ => Reply(Missing, Text("https://short.ly/abc")), timestamp);
    assert attempt == Completed(Shortened("https://example.com", "https://short.ly/abc"));
    assert store.items == [Record("https://example.com", "https://short.ly/abc", timestamp)];
    assert store.stored == Some(store.items);
    assert !form.busy && form.urlValue == [];
  }

  /** A service error wins over a result and leaves the history and the fields as they were. */
  method ScenarioServiceError(form: ShortenForm, validUrl: string -> bool, encode: string -> string, timestamp: string)
    requires form.Valid() && validUrl("https://example.com")
    modifies form, form.history
  {
    TrimUntouched("https://example.com");
    TrimUntouched("");
    form.Enter("https://example.com", "");
    var before := form.history.items;
    var attempt := form.HandleShorten(validUrl, encode, _ => Reply(Text("rate limited"), Text("https://short.ly/x")), timestamp);
    assert attempt == Completed(Failed("rate limited"));
    assert form.history.items == before;
    assert !form.busy && form.urlValue == "https://example.com";
  }

  /** The alias "ab cd" is refused once the URL is accepted. */
  lemma SpacedSlugRejected(validUrl: string -> bool)
    requires validUrl("https://example.com")
    ensures Validate("https://example.com", "ab cd", validUrl) == Failure(InvalidSlug)
  {
    TrimUntouched("https://example.com");
    TrimUntouched("ab cd");
    assert !IsSlugChar("ab cd"[2]);
  }

  /** An alias with a space is refused before anything is sent, and the in-flight flag is not touched. */
  method ScenarioInvalidSlug(form: ShortenForm, validUrl: string -> bool, encode: string -> string, timestamp: string)
    requires form.Valid() && validUrl("https://example.com")
    modifies form, form.history
  {
    SpacedSlugRejected(validUrl);
    form.Enter("https://example.com", "ab cd");
    var busy, before := form.busy, form.history.items;
    var attempt := form.HandleShorten(validUrl, encode, _ => Reply(Missing, Text("https://short.ly/y")), timestamp);
    assert attempt == Rejected(InvalidSlug);
    assert form.history.items == before && form.busy == busy;
  }
}
