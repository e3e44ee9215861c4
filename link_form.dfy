/** The create form's client-side checks and submission (frontend/src/components/LinkForm.jsx).
    Its own `isValidUrl` and `CODE_REGEX` are the same rules as the backend's, so this model
    uses `Validate.IsValidUrl` and `Validate.IsValidCode` for them. */
module LinkForm {
  import opened Wrappers
  import opened Validate
  import opened LinkModel
  import opened Registry

  /** The keys of the error object `e`. */
  datatype Field = UrlField | CodeField

  const URL_REQUIRED := "URL is required"
  const URL_INVALID := "Please enter a valid http(s) URL"
  const CODE_INVALID := "Code must be 6\U{2013}8 characters, letters/numbers only."

  /** The error object `validate()` builds, field by field. */
  function FormErrors(parse: UrlParser, url: string, code: string): (e: map<Field, string>)
    ensures UrlField in e <==> url == "" || !IsValidUrl(parse, url)
    ensures CodeField in e ==> e[CodeField] == CODE_INVALID
  {
    var e: map<Field, string> := map[];
    var e := if url == "" then e[UrlField := URL_REQUIRED]
             else if !IsValidUrl(parse, url) then e[UrlField := URL_INVALID]
             else e;
    if code != "" && !IsValidCode(code) then e[CodeField := CODE_INVALID] else e
  }

  /** The rules of `validate()`: a URL error that says what is wrong, a code error only for a
      non-empty code outside `[A-Za-z0-9]{6,8}`, and success exactly when no error was set. */
  lemma FormErrorRules(parse: UrlParser, url: string, code: string)
    ensures url == "" ==> UrlField in FormErrors(parse, url, code) && FormErrors(parse, url, code)[UrlField] == URL_REQUIRED
    ensures url != "" && !IsValidUrl(parse, url) ==>
              UrlField in FormErrors(parse, url, code) && FormErrors(parse, url, code)[UrlField] == URL_INVALID
    ensures UrlField !in FormErrors(parse, url, code) <==> url != "" && IsValidUrl(parse, url)
    ensures CodeField in FormErrors(parse, url, code) <==> code != "" && !IsValidCode(code)
    ensures |FormErrors(parse, url, code)| == 0 <==> url != "" && IsValidUrl(parse, url) && (code == "" || IsValidCode(code))
  {
    var e := FormErrors(parse, url, code);
    if |e| == 0 {
      assert UrlField !in e && CodeField !in e;
    } else {
      var f :| f in e;
    }
  }

  /** The body `createLink` is called with: `{ url, code: code || undefined }`. */
  datatype Payload = Payload(url: string, code: Option<string>)

  function PayloadOf(url: string, code: string): (p: Payload)
    ensures p.url == url
    ensures p.code.None? <==> code == ""
    ensures p.code.Some? ==> p.code.value == code
  {
    Payload(url, if code == "" then None else Some(code))
  }

  /** The form lets a request through exactly when the server's own checks of
      POST /api/links would not answer 400 for it. */
  lemma FormAgreesWithServer(parse: UrlParser, url: string, code: string)
    ensures |FormErrors(parse, url, code)| == 0 <==>
              !PlanCreate(parse, Some(PayloadOf(url, code).url), PayloadOf(url, code).code).Reject?
  {
    FormErrorRules(parse, url, code);
  }

  class LinkFormState {
    var url: string
    var code: string
    var errors: map<Field, string>
    var submitting: bool
    /** `new URL(...)`, as the browser parses it. */
    const parse: UrlParser

    constructor (parse: UrlParser)
      ensures url == "" && code == "" && errors == map[] && !submitting && this.parse == parse
    {
      url := "";
      code := "";
      errors := map[];
      submitting := false;
      this.parse := parse;
    }

    /** `validate()`: stores the error object and reports whether it is empty. */
    method Validate() returns (ok: bool)
      modifies this`errors
      ensures errors == FormErrors(parse, url, code)
      ensures ok <==> |errors| == 0
    {
      errors := FormErrors(parse, url, code);
      ok := |errors| == 0;
    }

    /** `handleSubmit`, given what `createLink` resolved to or the message it threw with.
        Returns the payload sent (none when validation failed) and the link passed to
        `onCreated`. */
    method HandleSubmit(reply: Result<LinkView>) returns (sent: Option<Payload>, created: Option<LinkView>)
      modifies this
      ensures errors == (if reply.Ok? && sent.Some? then map[] else FormErrors(parse, old(url), old(code)))
      ensures sent.Some? <==> |FormErrors(parse, old(url), old(code))| == 0
      ensures sent.Some? ==> sent.value == PayloadOf(old(url), old(code)) && !submitting
      ensures sent.None? ==> created.None? && url == old(url) && code == old(code) && submitting == old(submitting)
      ensures sent.Some? && reply.Ok? ==> url == "" && code == "" && created == Some(reply.value)
      ensures sent.Some? && reply.Fail? ==> url == old(url) && code == old(code) && created.None?
    {
      var ok := Validate();
      if !ok {
        return None, None;
      }
      submitting := true;
      sent := Some(PayloadOf(url, code));
      match reply {
        case Ok(newLink) =>
          url := "";
          code := "";
          errors := map[];
          created := Some(newLink);
        case Fail(_) =>
          created := None;
      }
      submitting := false;
    }
  }
}
