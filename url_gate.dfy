/**
 * `validate_url`: the gate a URL passes before it may be crawled. The
 * parsing itself (`urlparse`) is given: a URL arrives together with the
 * scheme, network location and host name the parser reports for it.
 */
module UrlGate {
  import opened Wrappers
  import Config

  /** What `urlparse` reports for a URL; `hostname` is `None` when the URL names no host. */
  datatype UrlParts = UrlParts(scheme: string, netloc: string, hostname: Option<string>)

  /** The `ValueError` messages of `validate_url`, one per check. */
  datatype UrlError = TooLong | SchemeNotAllowed | LocalResource | PrivateRange

  datatype Verdict = Accepted | Rejected(reason: UrlError)

  /** The host name begins with one of the private-range prefixes (a plain `startswith`). */
  predicate HasPrivatePrefix(host: string) {
    exists k :: 0 <= k < |Config.PrivatePrefixes| && Config.PrivatePrefixes[k] <= host
  }

  /** The three prefixes spelled out. */
  lemma PrivatePrefixes(h: string)
    ensures HasPrivatePrefix(h) <==> "192.168." <= h || "10." <= h || "172." <= h
  {
    if "192.168." <= h { assert Config.PrivatePrefixes[0] <= h; }
    if "10." <= h { assert Config.PrivatePrefixes[1] <= h; }
    if "172." <= h { assert Config.PrivatePrefixes[2] <= h; }
  }

  /** `validate_url`: the checks in source order; the first that fails names the rejection. */
  function ValidateUrl(url: string, parsed: UrlParts): (v: Verdict)
    ensures |url| > Config.MaxUrlLength ==> v == Rejected(TooLong)
    ensures v == Accepted ==> |url| <= Config.MaxUrlLength && parsed.scheme in Config.AllowedSchemes
  {
    if |url| > Config.MaxUrlLength then Rejected(TooLong)
    else if parsed.scheme !in Config.AllowedSchemes then Rejected(SchemeNotAllowed)
    else if parsed.hostname.Some? && parsed.hostname.value in Config.BlockedHosts then Rejected(LocalResource)
    else if parsed.hostname.Some? && parsed.hostname.value != [] && HasPrivatePrefix(parsed.hostname.value)
    then Rejected(PrivateRange)
    else Accepted
  }

  /** An accepted URL is short enough, http(s), and names neither a local host nor a private prefix. */
  lemma AcceptedIsSafe(url: string, parsed: UrlParts)
    requires ValidateUrl(url, parsed) == Accepted
    ensures |url| <= 2048
    ensures parsed.scheme == "http" || parsed.scheme == "https"
    ensures parsed.hostname.Some? ==>
      var h := parsed.hostname.value;
      && h != "localhost" && h != "127.0.0.1" && h != "0.0.0.0" && h != "::1"
      && !("192.168." <= h) && !("10." <= h) && !("172." <= h)
  {
    if parsed.hostname.Some? {
      PrivatePrefixes(parsed.hostname.value);
    }
  }

  /** Every URL that passes the four checks is accepted, including one that names no host. */
  lemma AcceptsEverythingElse(url: string, parsed: UrlParts)
    requires |url| <= 2048
    requires parsed.scheme in {"http", "https"}
    requires parsed.hostname.Some? ==>
      var h := parsed.hostname.value;
      && h !in {"localhost", "127.0.0.1", "0.0.0.0", "::1"}
      && !("192.168." <= h) && !("10." <= h) && !("172." <= h)
    ensures ValidateUrl(url, parsed) == Accepted
  {
    if parsed.hostname.Some? {
      PrivatePrefixes(parsed.hostname.value);
    }
  }

  /** A rejection names the first check that fails, in the order the code applies them. */
  lemma RejectionReason(url: string, parsed: UrlParts)
    ensures ValidateUrl(url, parsed) == Rejected(TooLong) <==> |url| > 2048
    ensures ValidateUrl(url, parsed) == Rejected(SchemeNotAllowed)
      <==> |url| <= 2048 && parsed.scheme !in {"http", "https"}
    ensures ValidateUrl(url, parsed) == Rejected(LocalResource)
      <==> && |url| <= 2048 && parsed.scheme in {"http", "https"}
           && parsed.hostname.Some? && parsed.hostname.value in {"localhost", "127.0.0.1", "0.0.0.0", "::1"}
  {
  }

  /** A public host name is accepted. */
  lemma ExpectedAcceptance()
    ensures ValidateUrl("https://example.com", UrlParts("https", "example.com", Some("example.com"))) == Accepted
  {
    assert !HasPrivatePrefix("example.com") by {
      forall k | 0 <= k < 3 ensures !(Config.PrivatePrefixes[k] <= "example.com") {
        assert "example.com"[0] == 'e';
      }
    }
  }

  /** A non-http(s) scheme and the local host names are refused, each with its own reason. */
  lemma ExpectedRefusals()
    ensures ValidateUrl("ftp://example.com", UrlParts("ftp", "example.com", Some("example.com")))
      == Rejected(SchemeNotAllowed)
    ensures ValidateUrl("http://localhost:8080", UrlParts("http", "localhost:8080", Some("localhost")))
      == Rejected(LocalResource)
    ensures ValidateUrl("http://127.0.0.1", UrlParts("http", "127.0.0.1", Some("127.0.0.1")))
      == Rejected(LocalResource)
  {
  }

  /** Host names in the three private ranges are refused. */
  lemma ExpectedPrivateRanges()
    ensures ValidateUrl("http://10.0.0.1", UrlParts("http", "10.0.0.1", Some("10.0.0.1"))) == Rejected(PrivateRange)
    ensures ValidateUrl("http://172.16.0.1", UrlParts("http", "172.16.0.1", Some("172.16.0.1")))
      == Rejected(PrivateRange)
    ensures ValidateUrl("http://192.168.1.1", UrlParts("http", "192.168.1.1", Some("192.168.1.1")))
      == Rejected(PrivateRange)
  {
    assert Config.PrivatePrefixes[1] <= "10.0.0.1";
    assert Config.PrivatePrefixes[2] <= "172.16.0.1";
    assert Config.PrivatePrefixes[0] <= "192.168.1.1";
  }

  /**
   * Consequences of testing text prefixes instead of address ranges: a
   * public 172.x address and a name such as "10.example.com" are refused.
   */
  lemma PrefixTestRefusesPublicHosts()
    ensures ValidateUrl("http://172.217.0.1", UrlParts("http", "172.217.0.1", Some("172.217.0.1")))
      == Rejected(PrivateRange)
    ensures ValidateUrl("http://10.example.com", UrlParts("http", "10.example.com", Some("10.example.com")))
      == Rejected(PrivateRange)
  {
    assert Config.PrivatePrefixes[2] <= "172.217.0.1";
    assert Config.PrivatePrefixes[1] <= "10.example.com";
  }

  /**
   * The other side of the prefix test: a loopback address other than
   * 127.0.0.1 and a URL without a host pass.
   */
  lemma PrefixTestAdmitsLoopback()
    ensures ValidateUrl("http://127.0.0.2", UrlParts("http", "127.0.0.2", Some("127.0.0.2"))) == Accepted
    ensures ValidateUrl("http:///path", UrlParts("http", "", None)) == Accepted
  {
    assert !HasPrivatePrefix("127.0.0.2") by {
      forall k | 0 <= k < 3 ensures !(Config.PrivatePrefixes[k] <= "127.0.0.2") {
        assert "127.0.0.2"[1] == '2';
        assert "127.0.0.2"[0] == '1';
      }
    }
  }
}
