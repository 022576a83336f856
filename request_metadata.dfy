/** Client identification from request headers: the client address from
    the first proxy header that carries one, the user agent, and the
    fingerprint built from both. Headers are a map from lowercase name to
    value. */
module RequestMetadata {
  import opened Wrappers
  import opened Text

  /** Proxy headers that may carry the client address, in the order they
      are consulted. */
  const IP_HEADER_CANDIDATES: seq<string> := ["cf-connecting-ip", "x-real-ip", "x-forwarded-for", "fly-client-ip"]

  /** Upper bound on a sanitised token. */
  const MAX_TOKEN := 160

  /** `headers.get(name)`, `null` as `None`. */
  function Header(headers: map<string, string>, name: string): Option<string> {
    if name in headers then Some(headers[name]) else None
  }

  /** `sanitizeToken`: nothing for a missing or blank value, otherwise the
      trimmed value cut to 160 characters. */
  function SanitizeToken(value: Option<string>): (r: Option<string>)
    ensures r.None? <==> value.None? || Trim(value.value) == ""
    ensures r.Some? ==> 0 < |r.value| <= MAX_TOKEN && IsPrefix(r.value, Trim(value.value))
    ensures r.Some? ==> |r.value| == if |Trim(value.value)| < MAX_TOKEN then |Trim(value.value)| else MAX_TOKEN
    ensures r.Some? ==> !IsSpace(r.value[0])
  {
    match value
    case None => None
    case Some(v) =>
      var trimmed := Trim(v);
      if trimmed == "" then None
      else
        var cut := if |trimmed| <= MAX_TOKEN then trimmed else trimmed[..MAX_TOKEN];
        CutKeepsStart(trimmed, cut);
        Some(cut)
  }

  /** Cutting a trimmed, non-empty token to the bound keeps a prefix that
      still starts with a non-space. */
  lemma CutKeepsStart(t: string, cut: string)
    requires Trimmed(t) && t != []
    requires cut == if |t| <= MAX_TOKEN then t else t[..MAX_TOKEN]
    ensures 0 < |cut| <= MAX_TOKEN && IsPrefix(cut, t) && !IsSpace(cut[0])
    ensures |cut| == if |t| < MAX_TOKEN then |t| else MAX_TOKEN
  {
    assert cut[0] == t[0];
    assert t[..|cut|] == cut;
  }

  /** What one proxy header yields: nothing when it is absent or empty,
      otherwise the sanitised text before its first comma. */
  function IpFrom(headers: map<string, string>, name: string): (r: Option<string>)
    ensures r.Some? ==> |r.value| <= MAX_TOKEN
    ensures r.Some? ==> name in headers && IsPrefix(r.value, Trim(BeforeFirst(headers[name], ',')))
    ensures r.Some? ==> |r.value| == if |Trim(BeforeFirst(headers[name], ','))| < MAX_TOKEN
      then |Trim(BeforeFirst(headers[name], ','))| else MAX_TOKEN
  {
    var value := Header(headers, name);
    if value.None? || value.value == "" then None
    else
      SanitizeToken(Some(BeforeFirst(value.value, ',')))
  }

  /** A header yields nothing exactly when it is absent or blank before its
      first comma; what it yields holds no comma. */
  lemma IpFromMeaning(headers: map<string, string>, name: string)
    ensures IpFrom(headers, name).None? <==> name !in headers || Trim(BeforeFirst(headers[name], ',')) == ""
    ensures IpFrom(headers, name).Some? ==> ',' !in IpFrom(headers, name).value
  {
    var r := IpFrom(headers, name);
    if r.Some? {
      NoCommaInPrefix(BeforeFirst(headers[name], ','), r.value);
    }
  }

  lemma NoCommaInPrefix(s: string, p: string)
    requires ',' !in s && IsPrefix(p, Trim(s))
    ensures ',' !in p
  {
    var t := TrimStart(s);
    assert forall c | c in TrimEnd(t) :: c in t;
    assert forall c | c in t :: c in s;
    assert forall c | c in p :: c in Trim(s);
  }

  /** The first value `f` gives for the items of `xs`, in order. */
  function FirstSome<T, U>(xs: seq<T>, f: T -> Option<U>): Option<U>
    decreases |xs|
  {
    if xs == [] then None
    else if f(xs[0]).Some? then f(xs[0]) else FirstSome(xs[1..], f)
  }

  /** The first item with a value decides; no item has one exactly when the
      result is nothing. */
  lemma {:induction false} FirstSomeIsFirst<T, U>(xs: seq<T>, f: T -> Option<U>)
    ensures FirstSome(xs, f).None? <==> forall k | 0 <= k < |xs| :: f(xs[k]).None?
    ensures FirstSome(xs, f).Some? ==> exists k | 0 <= k < |xs| ::
      FirstSome(xs, f) == f(xs[k]) && forall j | 0 <= j < k :: f(xs[j]).None?
    decreases |xs|
  {
    if xs == [] {
    } else if f(xs[0]).Some? {
      assert FirstSome(xs, f) == f(xs[0]);
    } else {
      var tail := xs[1..];
      FirstSomeIsFirst(tail, f);
      assert forall k | 1 <= k < |xs| :: xs[k] == tail[k - 1];
      var r := FirstSome(xs, f);
      if r.Some? {
        var k :| 0 <= k < |tail| && r == f(tail[k]) && forall j | 0 <= j < k :: f(tail[j]).None?;
        assert r == f(xs[k + 1]);
      }
    }
  }

  /** The header lookup as a function value. */
  function IpOf(headers: map<string, string>): string -> Option<string> {
    (name: string) => IpFrom(headers, name)
  }

  /** The address the first qualifying header in `names` yields. */
  function FirstIp(headers: map<string, string>, names: seq<string>): (r: Option<string>)
    ensures r.None? <==> forall k | 0 <= k < |names| :: IpFrom(headers, names[k]).None?
  {
    FirstSomeIsFirst(names, IpOf(headers));
    FirstSome(names, IpOf(headers))
  }

  /** The first header of `names` that yields an address decides; none
      yields one exactly when the result is nothing; and the result is a
      sanitised token without a comma. */
  lemma FirstIpIsFirstQualifying(headers: map<string, string>, names: seq<string>)
    ensures FirstIp(headers, names).None? <==> forall k | 0 <= k < |names| :: IpFrom(headers, names[k]).None?
    ensures FirstIp(headers, names).Some? ==> exists k | 0 <= k < |names| ::
      FirstIp(headers, names) == IpFrom(headers, names[k]) && forall j | 0 <= j < k :: IpFrom(headers, names[j]).None?
    ensures FirstIp(headers, names).Some? ==>
      0 < |FirstIp(headers, names).value| <= MAX_TOKEN && ',' !in FirstIp(headers, names).value
  {
    FirstSomeIsFirst(names, IpOf(headers));
    var r := FirstIp(headers, names);
    if r.Some? {
      var k :| 0 <= k < |names| && r == IpFrom(headers, names[k]);
      IpFromMeaning(headers, names[k]);
    }
  }

  /** `getRequestIp`: the candidate headers in order; the first that
      yields a non-blank address wins. */
  method GetRequestIp(headers: map<string, string>) returns (ip: Option<string>)
    ensures ip == FirstIp(headers, IP_HEADER_CANDIDATES)
  {
    var i := 0;
    while i < |IP_HEADER_CANDIDATES|
      invariant 0 <= i <= |IP_HEADER_CANDIDATES|
      invariant FirstIp(headers, IP_HEADER_CANDIDATES) == FirstIp(headers, IP_HEADER_CANDIDATES[i..])
    {
      var name := IP_HEADER_CANDIDATES[i];
      assert IP_HEADER_CANDIDATES[i..][1..] == IP_HEADER_CANDIDATES[i + 1..];
      if name !in headers || headers[name] == "" {
        i := i + 1;
        continue;
      }
      var primary := BeforeFirst(headers[name], ',');
      var sanitized := SanitizeToken(Some(primary));
      if sanitized.Some? {
        return sanitized;
      }
      i := i + 1;
    }
    return None;
  }

  /** `getRequestUserAgent`. */
  function GetRequestUserAgent(headers: map<string, string>): (r: Option<string>)
    ensures r.None? <==> "user-agent" !in headers || Trim(headers["user-agent"]) == ""
    ensures r.Some? ==> |r.value| <= MAX_TOKEN && IsPrefix(r.value, Trim(headers["user-agent"]))
    ensures r.Some? ==> |r.value| == if |Trim(headers["user-agent"])| < MAX_TOKEN then |Trim(headers["user-agent"])| else MAX_TOKEN
  {
    SanitizeToken(Header(headers, "user-agent"))
  }

  /** A non-blank user agent of at most 160 characters is kept whole,
      trimmed. */
  lemma ShortUserAgentKept(headers: map<string, string>)
    requires "user-agent" in headers
    requires Trim(headers["user-agent"]) != "" && |Trim(headers["user-agent"])| <= MAX_TOKEN
    ensures GetRequestUserAgent(headers) == Some(Trim(headers["user-agent"]))
  {
    var t := Trim(headers["user-agent"]);
    var r := GetRequestUserAgent(headers);
    assert r.Some? && |r.value| == |t| && IsPrefix(r.value, t);
    assert t[..|t|] == t;
  }

  function OrElse(v: Option<string>, fallback: string): string {
    if v.Some? then v.value else fallback
  }

  /** `buildClientFingerprint`: address and user agent, or their
      placeholders, joined by `|`. */
  method BuildClientFingerprint(headers: map<string, string>) returns (fingerprint: string)
    ensures fingerprint == OrElse(FirstIp(headers, IP_HEADER_CANDIDATES), "unknown-ip") + "|"
                           + OrElse(GetRequestUserAgent(headers), "unknown-ua")
    ensures |fingerprint| <= 2 * MAX_TOKEN + 1
  {
    var ip := GetRequestIp(headers);
    FirstIpIsFirstQualifying(headers, IP_HEADER_CANDIDATES);
    var ua := GetRequestUserAgent(headers);
    fingerprint := OrElse(ip, "unknown-ip") + "|" + OrElse(ua, "unknown-ua");
  }

  /** Without any proxy header or user agent the fingerprint is the two
      placeholders. */
  method AnonymousFingerprint() returns (fingerprint: string)
    ensures fingerprint == "unknown-ip|unknown-ua"
  {
    var headers: map<string, string> := map[];
    fingerprint := BuildClientFingerprint(headers);
  }

  /** A forwarded-for chain yields its first hop, trimmed, when no earlier
      candidate header is present. */
  lemma ForwardedForFirstHop(headers: map<string, string>, chain: string)
    requires "cf-connecting-ip" !in headers && "x-real-ip" !in headers
    requires "x-forwarded-for" in headers && headers["x-forwarded-for"] == chain
    requires Trim(BeforeFirst(chain, ',')) != "" && |Trim(BeforeFirst(chain, ','))| <= MAX_TOKEN
    ensures FirstIp(headers, IP_HEADER_CANDIDATES) == Some(Trim(BeforeFirst(chain, ',')))
  {
    var names := IP_HEADER_CANDIDATES;
    assert names[0] == "cf-connecting-ip" && names[1] == "x-real-ip" && names[2] == "x-forwarded-for";
    HopOf(headers, names[2], chain);
    ThirdDecides(headers, names);
  }

  /** When the first two names are absent and the third yields an
      address, the third decides. */
  lemma ThirdDecides(headers: map<string, string>, names: seq<string>)
    requires |names| >= 3 && names[0] !in headers && names[1] !in headers
    requires IpFrom(headers, names[2]).Some?
    ensures FirstIp(headers, names) == IpFrom(headers, names[2])
  {
    var f := IpOf(headers);
    FirstSomeSkip(names, f);
    FirstSomeSkip(names[1..], f);
    assert names[1..][1..] == names[2..];
    FirstSomeHit(names[2..], f);
  }

  /** A header whose first hop is short enough yields that hop, trimmed. */
  lemma HopOf(headers: map<string, string>, name: string, chain: string)
    requires name in headers && headers[name] == chain
    requires Trim(BeforeFirst(chain, ',')) != "" && |Trim(BeforeFirst(chain, ','))| <= MAX_TOKEN
    ensures IpFrom(headers, name) == Some(Trim(BeforeFirst(chain, ',')))
  {
    assert chain != "";
    var hop := Trim(BeforeFirst(chain, ','));
    var got := SanitizeToken(Some(BeforeFirst(chain, ',')));
    assert got.Some? && |got.value| == |hop| && IsPrefix(got.value, hop);
    assert hop[..|hop|] == hop;
  }

  lemma FirstSomeSkip<T, U>(xs: seq<T>, f: T -> Option<U>)
    requires xs != [] && f(xs[0]).None?
    ensures FirstSome(xs, f) == FirstSome(xs[1..], f)
  {
  }

  lemma FirstSomeHit<T, U>(xs: seq<T>, f: T -> Option<U>)
    requires xs != [] && f(xs[0]).Some?
    ensures FirstSome(xs, f) == f(xs[0])
  {
  }
}
