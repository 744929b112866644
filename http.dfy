/**
 * Request helpers of the worker (worker/index.ts): the client address used
 * as rate-limit key and stored with bottles, and the CORS origin check.
 */
module Http {
  import opened Optional
  import opened JsString

  /**
   * Request headers, keyed by lower-case header name; a header that is absent
   * has no key (`c.req.header(name)` is `undefined`).
   */
  type Headers = map<string, string>

  /** `s.split(",")[0]`: the text before the first comma, or all of `s`. */
  function FirstField(s: string): (r: string)
    ensures r <= s && ',' !in r
    ensures r == s || s[|r|] == ','
  {
    var k := IndexOf(s, ",", 0);
    if k < 0 then
      assert forall j :: 0 <= j < |s| ==> !Occurs(s, ",", j);
      assert forall j :: 0 <= j < |s| ==> s[j] != ',' by {
        forall j | 0 <= j < |s| ensures s[j] != ',' {
          assert !Occurs(s, ",", j);
          assert s[j..j + 1] == [s[j]];
        }
      }
      s
    else
      var r := s[..k];
      assert forall j :: 0 <= j < k ==> r[j] != ',' by {
        forall j | 0 <= j < k ensures r[j] != ',' {
          assert !Occurs(s, ",", j);
          assert s[j..j + 1] == [s[j]];
        }
      }
      assert s[k..k + 1] == ",";
      r
  }

  /** `h || ""`-style read of a header: absent and empty headers are both falsy. */
  function HeaderOr(h: Headers, name: string): string {
    if name in h then h[name] else ""
  }

  /**
   * `getClientIP`: the `CF-Connecting-IP` header, else the first entry of
   * `X-Forwarded-For` trimmed, else `"unknown"`; an empty candidate is skipped.
   */
  function ClientIP(h: Headers): (ip: string)
    ensures ip != ""
    ensures HeaderOr(h, "cf-connecting-ip") != "" ==> ip == h["cf-connecting-ip"]
  {
    var cf := HeaderOr(h, "cf-connecting-ip");
    if cf != "" then cf
    else
      var xff := if "x-forwarded-for" in h then Trim(FirstField(h["x-forwarded-for"])) else "";
      if xff != "" then xff else "unknown"
  }

  /**
   * Without a `CF-Connecting-IP` value the address is the first
   * comma-separated `X-Forwarded-For` entry with the surrounding white space
   * removed (the entry is blank around it; it is a piece of that header,
   * holding no comma), and `"unknown"`
   * stands in exactly when that entry is blank or the header is missing.
   */
  lemma ClientIPFallback(h: Headers)
    requires HeaderOr(h, "cf-connecting-ip") == ""
    ensures var ip := ClientIP(h);
      var entry := FirstField(HeaderOr(h, "x-forwarded-for"));
      (IsBlank(entry) ==> ip == "unknown") &&
      (!IsBlank(entry) ==> IsTrimmed(ip) && ',' !in ip && Contains(HeaderOr(h, "x-forwarded-for"), ip)) &&
      (!IsBlank(entry) ==> BlankAround(entry, ip))
  {
    var x := HeaderOr(h, "x-forwarded-for");
    var f := FirstField(x);
    TrimEmptyIffBlank(f);
    if !IsBlank(f) {
      assert ClientIP(h) == Trim(f);
      TrimmedEntry(x);
    }
  }

  /** The trimmed first entry of a header whose first entry is not blank. */
  lemma TrimmedEntry(x: string)
    requires !IsBlank(FirstField(x))
    ensures var f := FirstField(x);
      var r := Trim(f);
      IsTrimmed(r) && ',' !in r && Contains(x, r) && BlankAround(f, r)
  {
    var f := FirstField(x);
    TrimIsBlankAround(f);
    TrimOfCommaFree(f);
    TrimIsPiece(f);
    assert x[..|f|] == f;
    ContainsInSlice(x, 0, |f|, Trim(f));
  }

  /** Trimming a text without a comma leaves a text without a comma. */
  lemma TrimOfCommaFree(f: string)
    requires ',' !in f
    ensures ',' !in Trim(f)
  {
    var r := Trim(f);
    TrimIsPiece(f);
    forall j | 0 <= j < |r| ensures r[j] != ',' {
      var i :| Occurs(f, r, i);
      assert r[j] == f[i..i + |r|][j] == f[i + j];
      assert f[i + j] in f;
    }
  }

  lemma TrimIsPiece(s: string)
    ensures Contains(s, Trim(s))
  {
    TrimSplits(s);
    var r := Trim(s);
    var i :| 0 <= i <= |s| - |r| && s[i..i + |r|] == r && IsBlank(s[..i]) && IsBlank(s[i + |r|..]);
    assert Occurs(s, r, i);
  }

  // ---------------------------------------------------------------------------
  // CORS

  /** The deployed front ends. */
  const ProductionOrigins: seq<string> := ["https://riverbank.day", "https://uat-riverbank-day.workers.dev"]

  /**
   * The `origin` callback as written: any origin mentioning `localhost` or
   * `127.0.0.1` anywhere is echoed back, as are the production origins;
   * every other origin gets `null` (no CORS headers).
   */
  function CorsOriginAsWritten(origin: string): (r: Option<string>)
    ensures r.Some? ==> r.value == origin
    ensures origin in ProductionOrigins ==> r == Some(origin)
  {
    if Includes(origin, "localhost") || Includes(origin, "127.0.0.1") then Some(origin)
    else if origin == "https://riverbank.day" || origin == "https://uat-riverbank-day.workers.dev" then Some(origin)
    else None
  }

  /** An origin served by a foreign host whose name merely starts with `localhost` is echoed back. */
  lemma CorsAdmitsForeignHost()
    ensures CorsOriginAsWritten("https://localhost.evil.example") == Some("https://localhost.evil.example")
  {
    var a, b, c := "https://", "localhost", ".evil.example";
    assert a + b + c == "https://localhost.evil.example";
    assert (a + b + c)[|a|..|a| + |b|] == b;
    assert Occurs(a + b + c, b, |a|);
  }

  predicate IsDigits(s: string) {
    s != [] && forall i :: 0 <= i < |s| ==> '0' <= s[i] <= '9'
  }

  /** `:` followed by a port number, or nothing. */
  predicate IsPortSuffix(s: string) {
    s == [] || (s[0] == ':' && IsDigits(s[1..]))
  }

  /** The text after `http://` or `https://`, if the origin starts with either. */
  function AfterScheme(origin: string): (r: Option<string>)
    ensures r.Some? ==> (origin == "http://" + r.value || origin == "https://" + r.value)
  {
    if |origin| >= 7 && origin[..7] == "http://" then
      assert origin == origin[..7] + origin[7..];
      Some(origin[7..])
    else if |origin| >= 8 && origin[..8] == "https://" then
      assert origin == origin[..8] + origin[8..];
      Some(origin[8..])
    else None
  }

  /** The text before the first `:`, or all of `s`. */
  function BeforeColon(s: string): (r: string)
    ensures r <= s && ':' !in r
    ensures r == s || s[|r|] == ':'
  {
    if s == [] || s[0] == ':' then []
    else
      var r := [s[0]] + BeforeColon(s[1..]);
      assert r[1..] == BeforeColon(s[1..]);
      r
  }

  /** An origin whose host is exactly `localhost` or `127.0.0.1`, on any port. */
  predicate IsLoopbackOrigin(origin: string) {
    var rest := AfterScheme(origin);
    rest.Some? &&
    var host := BeforeColon(rest.value);
    (host == "localhost" || host == "127.0.0.1") && IsPortSuffix(rest.value[|host|..])
  }

  /** The `origin` callback as intended: development origins on the loopback host, and production. */
  function CorsOrigin(origin: string): (r: Option<string>)
    ensures r.Some? ==> r.value == origin
    ensures origin in ProductionOrigins ==> r == Some(origin)
  {
    if IsLoopbackOrigin(origin) then Some(origin)
    else if origin == "https://riverbank.day" || origin == "https://uat-riverbank-day.workers.dev" then Some(origin)
    else None
  }

  lemma {:induction false} BeforeColonOfHost(host: string, port: string)
    requires ':' !in host && IsPortSuffix(port)
    ensures BeforeColon(host + port) == host
    decreases |host|
  {
    if host == [] {
    } else {
      assert (host + port)[1..] == host[1..] + port;
      assert host[0] in host;
      assert forall c :: c in host[1..] ==> c in host;
      BeforeColonOfHost(host[1..], port);
    }
  }

  /**
   * The intended CORS guarantee: an origin `scheme://host[:port]` that is not
   * a production origin is admitted only when its host is the loopback name
   * or address, and every such loopback origin is admitted.
   */
  lemma CorsAdmitsOnlyLoopback(scheme: string, host: string, port: string)
    requires scheme == "http://" || scheme == "https://"
    requires ':' !in host && IsPortSuffix(port)
    requires scheme + host + port !in ProductionOrigins
    ensures CorsOrigin(scheme + host + port).Some? <==> (host == "localhost" || host == "127.0.0.1")
  {
    var o := scheme + host + port;
    assert o[..|scheme|] == scheme;
    if scheme == "http://" {
      assert o[7..] == host + port;
    } else {
      assert o[..7] != "http://" by { assert o[4] == 's'; }
      assert o[8..] == host + port;
    }
    BeforeColonOfHost(host, port);
    assert (host + port)[|host|..] == port;
  }

  /** The corrected check refuses the origin the written one lets through. */
  lemma CorsRefusesForeignHost()
    ensures CorsOrigin("https://localhost.evil.example") == None
  {
    var host := "localhost.evil.example";
    assert ':' !in host by {
      assert forall i :: 0 <= i < |host| ==> host[i] != ':';
    }
    assert "https://" + host + "" == "https://localhost.evil.example";
    assert |"https://localhost.evil.example"| == 30;
    CorsAdmitsOnlyLoopback("https://", host, "");
  }
}
