/**
 The three acceptors of the portal's `DOMAIN`: `_validate_hostname` of `bitrix/forms.py`,
 `_frame_ancestors` of `handlers/render.py` and `frameAncestors` of `web/src/middleware.ts`.
 Text is ASCII.
 */
module Hosts {
  import opened Wrappers
  import opened Texts
  import opened HostNames

  // ------------------------------------------------------------------ bitrix/forms.py

  datatype HostError = Malformed | BadPort

  /** `_validate_hostname` with a port allowed, on a present value. */
  ghost function ValidateHostname(value: string): Result<string, HostError> {
    var host := Lower(value);
    if ':' in host then
      var i := LastColon(host);
      var head, port := host[..i], host[i + 1..];
      if !AllDigits(DropNewline(port)) || |port| > 5 then Failure(Malformed)
      else if !(1 <= Decimal(DropNewline(port)) <= 65535) then Failure(BadPort)
      else ValidateLabels(head, head + ":" + port)
    else ValidateLabels(host, host)
  }

  ghost function ValidateLabels(host: string, value: string): Result<string, HostError> {
    if host == "" || |host| > 253 then Failure(Malformed)
    else if exists part :: part in Split(host, '.') && !PyMatches(LabelRe(PY_LETTERS), part) then Failure(Malformed)
    else Success(value)
  }

  /** `_clean` and then the validator, as the page forms do it; `None` for a field that is missing or blank. */
  ghost function FormDomain(raw: string): Option<Result<string, HostError>> {
    var trimmed := Strip(raw);
    if trimmed == "" then None else Some(ValidateHostname(trimmed))
  }

  // ------------------------------------------------------------------ handlers/render.py

  /** The host and port part of `_frame_ancestors`; `None` stands for `'none'`. */
  ghost function RenderOrigin(domain: string): Option<string> {
    RenderOf(Lower(Strip(domain)))
  }

  ghost function RenderOf(host: string): Option<string> {
    if ':' in host then
      var i := LastColon(host);
      var head, tail := host[..i], host[i + 1..];
      if !AllDigits(tail) || !(1 <= Decimal(tail) <= 65535) || |tail| > 5 then None
      else RenderHost(head, ":" + tail)
    else RenderHost(host, "")
  }

  ghost function RenderHost(host: string, port: string): Option<string> {
    if PyWithin253(host) && PyMatches(HostRe(PY_LETTERS), host) then Some(host + port) else None
  }

  /** The `Content-Security-Policy` value the rendered pages carry. */
  ghost function RenderPolicy(domain: string, protocolHttps: bool): string {
    match RenderOrigin(domain)
    case None => "frame-ancestors 'none'"
    case Some(origin) => "frame-ancestors 'self' " + (if protocolHttps then "https" else "http") + "://" + origin
  }

  // ------------------------------------------------------------------ web/src/middleware.ts

  /** White space for `String.prototype.trim`. */
  predicate JsSpace(c: char) {
    var n := c as int;
    || 9 <= n <= 13 || n == 32 || n == 0xA0 || n == 0xFEFF || n == 0x1680 || 0x2000 <= n <= 0x200A
    || n == 0x2028 || n == 0x2029 || n == 0x202F || n == 0x205F || n == 0x3000
  }

  function Trim(s: string): (t: string)
    ensures t == "" || (!JsSpace(t[0]) && !JsSpace(t[|t| - 1]))
    decreases |s|
  {
    if s == "" then ""
    else if JsSpace(s[0]) then Trim(s[1..])
    else if JsSpace(s[|s| - 1]) then Trim(s[..|s| - 1])
    else s
  }

  ghost function MiddlewareOrigin(domain: string): Option<string> {
    MiddlewareOf(Lower(Trim(domain)))
  }

  ghost function MiddlewareOf(host: string): Option<string> {
    if ':' in host then
      var cut := LastColon(host);
      var head, tail := host[..cut], host[cut + 1..];
      if !(AllDigits(tail) && |tail| <= 5) then None
      else if Decimal(tail) < 1 || Decimal(tail) > 65535 then None
      else MiddlewareHost(head, ":" + tail)
    else MiddlewareHost(host, "")
  }

  ghost function MiddlewareHost(host: string, port: string): Option<string> {
    if JsWithin253(host) && Matches(HostRe(JS_LETTERS), host) then Some(host + port) else None
  }

  ghost function MiddlewarePolicy(domain: string, protocolRaw: Option<string>): string {
    if protocolRaw.Some? && protocolRaw.value != "0" && protocolRaw.value != "1" then "frame-ancestors 'none'"
    else
      match MiddlewareOrigin(domain)
      case None => "frame-ancestors 'none'"
      case Some(origin) =>
        "frame-ancestors 'self' " + (if protocolRaw == Some("0") then "http" else "https") + "://" + origin
  }

  // ------------------------------------------------------------------ what each acceptor accepts

  /** The form validator: every label may carry one newline at its end, and so may the port. */
  predicate FormLabels(s: string) {
    1 <= |s| <= 253 && forall part :: part in Split(s, '.') ==> Label(DropNewline(part))
  }

  predicate FormAuthority(s: string) {
    if ':' in s then
      var i := LastColon(s);
      FormLabels(s[..i]) && |s[i + 1..]| <= 5 && Port(DropNewline(s[i + 1..]))
    else FormLabels(s)
  }

  lemma {:induction false} FormParts(host: string, value: string)
    requires Lowered(host)
    ensures ValidateLabels(host, value) == if FormLabels(host) then Success(value) else Failure(Malformed)
  {
    PartsWithin(host, '.');
    forall part | part in Split(host, '.') ensures PyMatches(LabelRe(PY_LETTERS), part) <==> Label(DropNewline(part)) {
      assert forall i :: 0 <= i < |part| ==> part[i] in part;
      PyPart(part);
    }
  }

  /** Exactly what `_validate_hostname` accepts and returns: its input in lower case. */
  lemma {:induction false} FormAccepts(value: string, out: string)
    ensures ValidateHostname(value) == Success(out) <==> out == Lower(value) && FormAuthority(out)
  {
    var host := Lower(value);
    if ':' in host {
      var i := LastColon(host);
      assert host == host[..i] + ":" + host[i + 1..];
      FormParts(host[..i], host);
    } else {
      FormParts(host, host);
    }
  }

  /** The port is refused as such exactly when it is a numeral of at most five characters out of range. */
  lemma {:induction false} BadPorts(value: string)
    ensures ValidateHostname(value) == Failure(BadPort) <==>
              && ':' in Lower(value)
              && var port := Lower(value)[LastColon(Lower(value)) + 1..];
                 |port| <= 5 && AllDigits(DropNewline(port)) && !Port(DropNewline(port))
  {
    var host := Lower(value);
    if ':' in host {
      var i := LastColon(host);
      FormParts(host[..i], host[..i] + ":" + host[i + 1..]);
    } else {
      FormParts(host, host);
    }
  }

  /** Validating a stored value again accepts it and leaves it alone. */
  lemma {:induction false} FormIdempotent(value: string)
    requires ValidateHostname(value).Success?
    ensures ValidateHostname(ValidateHostname(value).value) == ValidateHostname(value)
  {
    var out := ValidateHostname(value).value;
    FormAccepts(value, out);
    LowerIsLowered(value);
    FormAccepts(out, out);
  }

  /** What `_frame_ancestors` accepts: the host may carry one newline at its end. */
  predicate RenderAuthority(s: string) {
    if ':' in s then
      var i := LastColon(s);
      Hostname(DropNewline(s[..i])) && Port(s[i + 1..])
    else Hostname(DropNewline(s))
  }

  lemma {:induction false} RenderAccepts(domain: string)
    ensures var s := Lower(Strip(domain)); RenderOrigin(domain) == if RenderAuthority(s) then Some(s) else None
  {
    LowerIsLowered(Strip(domain));
    RenderOfIs(Lower(Strip(domain)));
  }

  lemma {:induction false} RenderOfIs(s: string)
    requires Lowered(s)
    ensures RenderOf(s) == if RenderAuthority(s) then Some(s) else None
  {
    if ':' in s {
      var i := LastColon(s);
      RenderHostIs(s[..i], ":" + s[i + 1..]);
      Rejoin(s, i);
    } else {
      RenderHostIs(s, "");
      assert s + "" == s;
    }
  }

  lemma {:induction false} RenderHostIs(host: string, port: string)
    requires Lowered(host)
    ensures RenderHost(host, port) == if Hostname(DropNewline(host)) then Some(host + port) else None
  {
    PyHost(host);
  }

  lemma {:induction false} Rejoin(s: string, i: int)
    requires 0 <= i < |s| && s[i] == ':'
    ensures s[..i] + (":" + s[i + 1..]) == s
  {
  }

  lemma {:induction false} MiddlewareAccepts(domain: string)
    ensures var s := Lower(Trim(domain)); MiddlewareOrigin(domain) == if Authority(s) then Some(s) else None
  {
    LowerIsLowered(Trim(domain));
    MiddlewareOfIs(Lower(Trim(domain)));
  }

  lemma {:induction false} MiddlewareOfIs(s: string)
    requires Lowered(s)
    ensures MiddlewareOf(s) == if Authority(s) then Some(s) else None
  {
    if ':' in s {
      var i := LastColon(s);
      MiddlewareHostIs(s[..i], ":" + s[i + 1..]);
      Rejoin(s, i);
    } else {
      MiddlewareHostIs(s, "");
      assert s + "" == s;
    }
  }

  lemma {:induction false} MiddlewareHostIs(host: string, port: string)
    requires Lowered(host)
    ensures MiddlewareHost(host, port) == if Hostname(host) then Some(host + port) else None
  {
    JsHost(host);
  }

  // ------------------------------------------------------------------ agreement

  lemma {:induction false} AuthorityHasNoNewline(s: string)
    requires Authority(s)
    ensures NEWLINE !in s
  {
    if ':' in s {
      var i := LastColon(s);
      LabelsHaveNoNewline(s[..i]);
      assert s == s[..i] + ":" + s[i + 1..];
    } else {
      LabelsHaveNoNewline(s);
    }
  }

  /** Without a newline the three languages are one. */
  lemma {:induction false} OneLanguage(s: string)
    ensures Authority(s) <==> FormAuthority(s) && NEWLINE !in s
    ensures Authority(s) <==> RenderAuthority(s) && NEWLINE !in s
  {
    if Authority(s) {
      AuthorityHasNoNewline(s);
    }
    if NEWLINE !in s {
      var i := if ':' in s then LastColon(s) else |s|;
      OneHost(s[..i]);
      if ':' in s {
        assert DropNewline(s[i + 1..]) == s[i + 1..];
      } else {
        assert s[..i] == s;
      }
    }
  }

  lemma {:induction false} OneHost(s: string)
    requires NEWLINE !in s
    ensures DropNewline(s) == s && (FormLabels(s) <==> Hostname(s))
  {
    PartsWithin(s, '.');
    forall part | part in Split(s, '.') ensures DropNewline(part) == part {
      assert part != "" ==> part[|part| - 1] in part;
    }
    if Labels(s) {
      LabelsAreNotEmpty(s);
    }
  }

  predicate Ascii(s: string) {
    forall i :: 0 <= i < |s| ==> s[i] as int < 128
  }

  lemma {:induction false} StripBack(s: string, c: char)
    requires IsSpace(c)
    ensures Strip(s + [c]) == Strip(s)
  {
    if s == "" {
      assert s + [c] == [c] && [c][1..] == "";
    } else if IsSpace(s[0]) {
      assert (s + [c])[1..] == s[1..] + [c];
      StripBack(s[1..], c);
    } else {
      assert (s + [c])[..|s|] == s;
    }
  }

  /** On ASCII text JavaScript trims no more than Python does. */
  lemma {:induction false} StripTrim(s: string)
    requires Ascii(s)
    ensures Strip(Trim(s)) == Strip(s)
    decreases |s|
  {
    if s != "" && JsSpace(s[0]) {
      StripTrim(s[1..]);
    } else if s != "" && JsSpace(s[|s| - 1]) {
      StripTrim(s[..|s| - 1]);
      StripBack(s[..|s| - 1], s[|s| - 1]);
      assert s[..|s| - 1] + [s[|s| - 1]] == s;
    }
  }

  lemma {:induction false} AuthorityEnds(s: string)
    requires Authority(s)
    ensures s != "" && !IsSpace(s[0]) && !IsSpace(s[|s| - 1])
  {
    if ':' in s {
      var i := LastColon(s);
      LabelsAreNotEmpty(s[..i]);
      LabelsAreAscii(s[..i]);
      assert s[0] == s[..i][0] && s[..i][0] in s[..i];
      var port := s[i + 1..];
      assert s[|s| - 1] == port[|port| - 1];
    } else {
      LabelsAreNotEmpty(s);
      LabelsAreAscii(s);
      assert s[0] in s && s[|s| - 1] in s;
    }
  }

  lemma {:induction false} TrimmedAuthority(raw: string)
    requires Ascii(raw) && Authority(Lower(Trim(raw)))
    ensures Strip(raw) == Trim(raw)
  {
    StripTrim(raw);
    AuthorityEnds(Lower(Trim(raw)));
  }

  /**
   The three acceptors agree. The middleware accepts exactly what the form validator and
   the page renderer accept among values that hold no newline and no control character
   that Python trims and JavaScript does not, and all three yield the same lower-case host and port.
   */
  lemma {:induction false} AcceptorsAgree(raw: string, origin: string)
    requires Ascii(raw)
    ensures var plain := NEWLINE !in Strip(raw) && Trim(raw) == Strip(raw);
            && (MiddlewareOrigin(raw) == Some(origin) <==> plain && FormDomain(raw) == Some(Success(origin)))
            && (MiddlewareOrigin(raw) == Some(origin) <==> plain && RenderOrigin(raw) == Some(origin))
            && (plain ==> (MiddlewareOrigin(raw) == Some(origin) <==> origin == Lower(Trim(raw)) && Authority(origin)))
  {
    var s := Lower(Strip(raw));
    MiddlewareAccepts(raw);
    RenderAccepts(raw);
    if Strip(raw) != "" {
      FormAccepts(Strip(raw), origin);
    }
    OneLanguage(s);
    LowerKeepsNewlines(Strip(raw));
    if Authority(Lower(Trim(raw))) {
      TrimmedAuthority(raw);
      AuthorityEnds(Lower(Trim(raw)));
    }
  }

  lemma {:induction false} LowerKeepsNewlines(s: string)
    ensures NEWLINE in Lower(s) <==> NEWLINE in s
  {
    forall i | 0 <= i < |s| ensures Lower(s)[i] == NEWLINE <==> s[i] == NEWLINE {
    }
    if NEWLINE in s {
      var i :| 0 <= i < |s| && s[i] == NEWLINE;
      assert Lower(s)[i] == NEWLINE;
    }
  }

  /** The policy either side sends: the accepted origin under its scheme, or nothing may frame the page. */
  lemma {:induction false} PolicyOf(domain: string, protocolHttps: bool, protocolRaw: Option<string>)
    ensures var s := Lower(Strip(domain));
            RenderPolicy(domain, protocolHttps)
              == if !RenderAuthority(s) then "frame-ancestors 'none'"
                 else "frame-ancestors 'self' " + (if protocolHttps then "https" else "http") + "://" + s
    ensures var s := Lower(Trim(domain));
            MiddlewarePolicy(domain, protocolRaw)
              == if !Authority(s) || !(protocolRaw in {None, Some("0"), Some("1")}) then "frame-ancestors 'none'"
                 else "frame-ancestors 'self' " + (if protocolRaw == Some("0") then "http" else "https") + "://" + s
  {
    RenderAccepts(domain);
    MiddlewareAccepts(domain);
  }

  /** So a stored domain frames the same pages from the server and from the single-page application. */
  lemma {:induction false} PoliciesAgree(raw: string, stored: string, protocolRaw: Option<string>)
    requires Ascii(raw) && NEWLINE !in Strip(raw) && Trim(raw) == Strip(raw)
    requires FormDomain(raw) == Some(Success(stored))
    requires protocolRaw == None || protocolRaw == Some("0") || protocolRaw == Some("1")
    ensures RenderPolicy(stored, protocolRaw != Some("0")) == MiddlewarePolicy(raw, protocolRaw)
    ensures MiddlewarePolicy(raw, protocolRaw) != "frame-ancestors 'none'"
  {
    AcceptorsAgree(raw, stored);
    StoredIsItsOrigin(raw, stored);
    PolicyIsNotNone(stored);
  }

  lemma {:induction false} StoredIsItsOrigin(raw: string, stored: string)
    requires stored == Lower(Trim(raw)) && Authority(stored)
    ensures RenderOrigin(stored) == Some(stored)
  {
    AuthorityEnds(stored);
    assert Strip(stored) == stored;
    RenderAccepts(stored);
    LowerIsLowered(Trim(raw));
    OneLanguage(stored);
  }

  lemma {:induction false} PolicyIsNotNone(origin: string)
    ensures forall scheme :: "frame-ancestors 'self' " + scheme + "://" + origin != "frame-ancestors 'none'"
  {
    forall scheme ensures "frame-ancestors 'self' " + scheme + "://" + origin != "frame-ancestors 'none'" {
      assert ("frame-ancestors 'self' " + scheme + "://" + origin)[17] == 's';
      assert "frame-ancestors 'none'"[17] == 'n';
    }
  }

  /** With a newline they divide: after a label only the form validator accepts it. */
  lemma {:induction false} NewlineAfterLabel()
    ensures ValidateHostname("a\n.b") == Success("a\n.b") && RenderOrigin("a\n.b") == None
  {
    var s := "a\n.b";
    assert Lower(s) == s && Strip(s) == s;
    DottedParts();
    FormAccepts(s, s);
    RenderAccepts(s);
    assert s[1] == NEWLINE;
    assert DropNewline(s) == s;
    if Labels(s) {
      LabelsHaveNoNewline(s);
    }
  }

  lemma {:induction false} DottedParts()
    ensures FormLabels("a\n.b")
  {
    var s := "a\n.b";
    FindNone("b", '.');
    FindIn("a\n", '.', "b");
    assert s == "a\n" + ['.'] + "b" && s[..2] == "a\n" && s[3..] == "b";
    assert Split("b", '.') == ["b"];
    assert Split(s, '.') == ["a\n", "b"];
    assert DropNewline("a\n") == "a" && DropNewline("b") == "b";
  }

  /** Before a port both Python acceptors keep the newline in the origin, and the middleware refuses it. */
  lemma {:induction false} NewlineBeforePort()
    ensures RenderOrigin("a\n:8") == Some("a\n:8") && MiddlewareOrigin("a\n:8") == None
    ensures ValidateHostname("a\n:8") == Success("a\n:8")
  {
    var s := "a\n:8";
    assert s[0] == 'a' && s[1] == NEWLINE && s[2] == ':' && s[3] == '8';
    PortedParts();
    Untouched(s);
    RenderAccepts(s);
    FormAccepts(s, s);
    MiddlewareAccepts(s);
    OneLanguage(s);
  }

  lemma {:induction false} Untouched(s: string)
    requires |s| > 1 && LetDig(s[0]) && LetDig(s[|s| - 1]) && Lowered(s)
    ensures Strip(s) == s && Trim(s) == s && Lower(s) == s
  {
  }

  lemma {:induction false} PortedParts()
    ensures ':' in "a\n:8" && RenderAuthority("a\n:8") && FormAuthority("a\n:8")
  {
    var s := "a\n:8";
    assert s[2] == ':' && LastColon(s) == 2 && s[..2] == "a\n" && s[3..] == "8";
    assert Decimal("8") == 8 by {
      assert "8"[..0] == "";
    }
    FindNone("a", '.');
    FindNone("a\n", '.');
    assert Split("a", '.') == ["a"] && Split("a\n", '.') == ["a\n"];
    assert DropNewline("a\n") == "a" && DropNewline("8") == "8";
  }
}
