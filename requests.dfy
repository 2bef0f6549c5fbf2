/** What a view sees of an HTTP request, and the responses it can give. */
module Requests {

  import opened Wrappers
  import opened Strings

  /** The `request.META` entries the core reads. */
  datatype Meta = Meta(
    xForwardedFor: Option<string>,   // HTTP_X_FORWARDED_FOR
    remoteAddr: Option<string>,      // REMOTE_ADDR
    userAgent: Option<string>)       // HTTP_USER_AGENT

  /** `request.META.get('HTTP_USER_AGENT', '')` */
  function UserAgent(m: Meta): string
  {
    match m.userAgent
    case None => ""
    case Some(a) => a
  }

  /** `get_client_ip`, written out identically in the login view and the audit
      middleware: the text before the first ',' of X-Forwarded-For when that header
      is present and non-empty, otherwise REMOTE_ADDR (which may be missing). */
  function ClientIp(m: Meta): (ip: Option<string>)
    ensures m.xForwardedFor.Some? && m.xForwardedFor.value != "" ==>
              ip.Some? && ',' !in ip.value && StartsWith(m.xForwardedFor.value, ip.value)
    ensures (m.xForwardedFor.None? || m.xForwardedFor.value == "") ==> ip == m.remoteAddr
  {
    match m.xForwardedFor
    case Some(h) => if h != "" then Some(BeforeFirst(h, ',')) else m.remoteAddr
    case None => m.remoteAddr
  }

  /** The first hop of a proxy chain `a,b` is `a`, whatever follows the comma; a
      header without a comma is taken whole. */
  lemma ClientIpFirstHop(a: string, rest: Option<string>, remote: Option<string>, agent: Option<string>)
    requires ',' !in a
    requires rest.Some? || a != ""
    ensures ClientIp(Meta(Some(if rest.Some? then a + "," + rest.value else a), remote, agent)) == Some(a)
  {
    match rest
    case None => BeforeFirstNone(a, ',');
    case Some(b) => BeforeFirstOf(a, ',', b);
  }

  /** The value a `GenericIPAddressField` writes for an address: an empty string is
      stored as NULL, like a missing address; any other text is stored as given. */
  function StoredIp(ip: Option<string>): (r: Option<string>)
    ensures r.None? <==> ip.None? || ip.value == ""
    ensures r.Some? ==> r == ip
  {
    match ip
    case None => None
    case Some(a) => if a == "" then None else Some(a)
  }

  /** A leading comma in X-Forwarded-For, which the client controls, leaves an empty
      first field: nothing is stored, whatever REMOTE_ADDR holds. */
  lemma LeadingCommaStoresNothing(rest: string, remote: Option<string>, agent: Option<string>)
    ensures ClientIp(Meta(Some("," + rest), remote, agent)) == Some("")
    ensures StoredIp(ClientIp(Meta(Some("," + rest), remote, agent))).None?
  {
    BeforeFirstOf("", ',', rest);
    assert "" + "," + rest == "," + rest;
  }

  /** A form submission: a GET shows the form; a POST carries the submitted data and
      whether it passes the form's own field checks (required fields, lengths,
      formats), which are not modelled one by one. Validators the core defines are
      checked on `form` by the view that uses them. */
  datatype Submission<F> = Get | Post(form: F, fieldsOk: bool)

  /** What a redirect points at: `redirect(name)` or `redirect(name, pk=…)` /
      `redirect(name, mrn=…)` / `redirect(name, prescription_id=…)`. */
  datatype Target = Page(name: string) | ById(name: string, id: nat) | ByMrn(name: string, mrn: string)

  datatype Response =
    | Render                   // the view's template, with any form errors
    | Redirect(to: Target)
    | NotFound                 // Http404 from get_object_or_404
    | Json(items: nat)         // a JsonResponse listing that many results
    | ServerError(error: string)  // an exception the view does not catch
}
