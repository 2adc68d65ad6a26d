/** `onRequest` of functions/_middleware.js as a pure decision: pass the
    request on (`context.next()`) or answer 403. */
module Middleware {
  import opened Wrappers
  import opened JsStrings

  /** The list used when `ALLOWED_IPS` is unset or empty. */
  const DefaultAllowedIps: seq<string> := ["*"]

  const Wildcard: string := "*"

  datatype Decision = Next | Deny(status: nat, body: string)

  function TrimAll(parts: seq<string>): (r: seq<string>)
    ensures |r| == |parts| && forall i :: 0 <= i < |parts| ==> r[i] == Trim(parts[i])
  {
    seq(|parts|, i requires 0 <= i < |parts| => Trim(parts[i]))
  }

  /** `env.ALLOWED_IPS ? env.ALLOWED_IPS.split(',').map(ip => ip.trim()) : allowedIps`;
      the empty string is falsy, so it selects the default too. */
  function IpList(env: Option<string>): seq<string>
  {
    if env.Some? && env.value != "" then TrimAll(Split(env.value, ',')) else DefaultAllowedIps
  }

  const DenyHead: string := "Access Denied: Your IP address ("
  const DenyTail: string := ") is not allowed to access this service."

  function DenyMessage(clientIp: Option<string>): string
  {
    DenyHead + TemplateText(clientIp) + DenyTail
  }

  /** The decision for a request given `ALLOWED_IPS` and the
      `CF-Connecting-IP` header. The empty header is falsy and so never
      matches. */
  function OnRequest(env: Option<string>, clientIp: Option<string>): Decision
  {
    var ipList := IpList(env);
    if Wildcard in ipList then Next
    else if clientIp.Some? && clientIp.value != "" && clientIp.value in ipList then Next
    else Deny(403, DenyMessage(clientIp))
  }

  /** A set variable gives one trimmed entry per comma-separated piece, none
      of them with a comma or surrounding whitespace; otherwise the list is
      the default wildcard. */
  lemma IpListSpec(env: Option<string>)
    ensures env.Some? && env.value != "" ==>
              var pieces := Split(env.value, ',');
              |IpList(env)| == |pieces| &&
              forall i :: 0 <= i < |pieces| ==>
                IpList(env)[i] == Trim(pieces[i]) && Trimmed(IpList(env)[i]) && ',' !in IpList(env)[i]
    ensures env.None? || env == Some("") ==> IpList(env) == ["*"]
  {
    if env.Some? && env.value != "" {
      var pieces := Split(env.value, ',');
      SplitHasNoSeparator(env.value, ',');
      forall i | 0 <= i < |pieces| ensures ',' !in Trim(pieces[i]) {
        TrimKeepsCharacters(pieces[i]);
      }
    }
  }

  /** A wildcard in the list lets every request through, with or without a
      client address. */
  lemma WildcardAllowsEveryone(env: Option<string>, clientIp: Option<string>)
    requires Wildcard in IpList(env)
    ensures OnRequest(env, clientIp) == Next
  {
  }

  /** Without `ALLOWED_IPS` (or with it empty) every request is let through. */
  lemma DefaultAllowsEveryone(clientIp: Option<string>)
    ensures OnRequest(None, clientIp) == Next
    ensures OnRequest(Some(""), clientIp) == Next
  {
    assert Wildcard in DefaultAllowedIps;
  }

  /** Without a wildcard a request passes exactly when the header is present,
      non-empty and equal to an entry of the list. */
  lemma AllowedIffListed(env: Option<string>, clientIp: Option<string>)
    requires Wildcard !in IpList(env)
    ensures OnRequest(env, clientIp) == Next <==>
              clientIp.Some? && clientIp.value != "" && clientIp.value in IpList(env)
  {
  }

  /** Every refusal is a 403 whose text embeds the header value ("null" when
      it is missing) between the fixed sentence parts. */
  lemma DenialShape(env: Option<string>, clientIp: Option<string>)
    requires OnRequest(env, clientIp).Deny?
    ensures OnRequest(env, clientIp).status == 403
    ensures var body := OnRequest(env, clientIp).body;
            |body| == |DenyHead| + |TemplateText(clientIp)| + |DenyTail| &&
            body[..|DenyHead|] == DenyHead &&
            body[|DenyHead|..|DenyHead| + |TemplateText(clientIp)|] == TemplateText(clientIp) &&
            body[|DenyHead| + |TemplateText(clientIp)|..] == DenyTail
  {
    var body := DenyMessage(clientIp);
    assert body == DenyHead + TemplateText(clientIp) + DenyTail;
  }

  /** A missing header is refused when there is no wildcard. */
  lemma MissingHeaderDenied(env: Option<string>)
    requires Wildcard !in IpList(env)
    ensures OnRequest(env, None) == Deny(403, DenyHead + "null" + DenyTail)
  {
  }

  /** A setting without commas is a single entry, trimmed. */
  lemma SingleEntry(s: string)
    requires s != "" && ',' !in s
    ensures IpList(Some(s)) == [Trim(s)]
  {
    SplitWithoutSeparator(s, ',');
  }

  /** A leading space is trimmed away. */
  lemma TrimLeadingSpace(ip: string)
    requires Trimmed(ip)
    ensures Trim(" " + ip) == ip
  {
    var s := " " + ip;
    assert s[0] == ' ' && s[1..] == ip;
    TrimStartSkips(s);
    TrimStartKeeps(ip);
    TrimEndKeeps(ip);
  }

  /** Entries are trimmed: a setting that is one address after a space
      admits a client with that address. */
  lemma LeadingSpaceEntryMatches(ip: string)
    requires ip != "" && ip != Wildcard && Trimmed(ip) && ',' !in ip
    ensures IpList(Some(" " + ip)) == [ip]
    ensures OnRequest(Some(" " + ip), Some(ip)) == Next
  {
    var env := " " + ip;
    TrimLeadingSpace(ip);
    assert ',' !in env by { assert env == [' '] + ip; }
    SingleEntry(env);
  }

  /** A string without the separator splits into itself. */
  lemma {:induction false} SplitWithoutSeparator(s: string, d: char)
    requires d !in s
    ensures Split(s, d) == [s]
    decreases |s|
  {
    if |s| > 0 {
      SplitWithoutSeparator(s[1..], d);
      assert [s[0]] + s[1..] == s;
    }
  }

  /** A string without the separator, then the separator, splits into
      itself and the empty string. */
  lemma {:induction false} SplitTrailingSeparator(s: string, d: char)
    requires d !in s
    ensures Split(s + [d], d) == [s, ""]
    decreases |s|
  {
    if |s| == 0 {
      assert (s + [d])[1..] == "";
    } else {
      SplitTrailingSeparator(s[1..], d);
      assert (s + [d])[1..] == s[1..] + [d];
      assert [s[0]] + s[1..] == s;
    }
  }

  /** A trailing comma after a single trimmed entry adds an empty entry. */
  lemma TrailingComma(ip: string)
    requires ',' !in ip && Trimmed(ip)
    ensures IpList(Some(ip + [','])) == [ip, ""]
  {
    var v := ip + [','];
    SplitTrailingSeparator(ip, ',');
    assert Split(v, ',') == [ip, ""];
    TrimAllKeeps([ip, ""]);
  }

  /** Trimming entries that are already trimmed changes nothing. */
  lemma TrimAllKeeps(parts: seq<string>)
    requires forall i :: 0 <= i < |parts| ==> Trimmed(parts[i])
    ensures TrimAll(parts) == parts
  {
    forall i | 0 <= i < |parts|
      ensures TrimAll(parts)[i] == parts[i]
    {
      TrimTrimmed(parts[i]);
    }
  }

  /** An empty header never matches, not even the empty entry a trailing
      comma leaves in the list. */
  lemma EmptyHeaderNeverMatches(env: Option<string>)
    requires Wildcard !in IpList(env)
    ensures OnRequest(env, Some("")) == Deny(403, DenyMessage(Some("")))
  {
  }
}
