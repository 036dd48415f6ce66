/**
 * The URL handling of iptv.py: `is_ipv6`, `IPTV.is_port_necessary`, and the
 * `urlparse`/`geturl` round that `add_channel_uri` uses to drop a default port.
 * `urlparse` is modelled only as far as the aggregator looks at it: the scheme,
 * the network location and the text after it.
 */
module Urls {
  import opened Wrappers
  import opened Text

  predicate IsDigit(c: char) {
    '0' <= c <= '9'
  }

  predicate IsHexOrColon(c: char) {
    IsDigit(c) || 'a' <= c <= 'f' || 'A' <= c <= 'F' || c == ':'
  }

  /** Length of the longest prefix of `s` made of hex digits and colons. */
  function HexRun(s: string): (k: nat)
    ensures k <= |s| && (k < |s| ==> !IsHexOrColon(s[k]))
    ensures forall i :: 0 <= i < k ==> IsHexOrColon(s[i])
  {
    if s != [] && IsHexOrColon(s[0]) then 1 + HexRun(s[1..]) else 0
  }

  /** A bracketed IPv6 literal starts `s` and closes at index `j`. */
  ghost predicate BracketedAt(s: string, j: int) {
    2 <= j < |s| && s[0] == '[' && s[j] == ']' && forall i :: 1 <= i < j ==> IsHexOrColon(s[i])
  }

  /**
   * `re.match(r'\[[0-9a-fA-F:]+\]', netloc) is not None`: the network location
   * begins with a bracketed run of hex digits and colons (what follows the
   * closing bracket is not looked at).
   */
  function IsIpv6(netloc: string): (r: bool)
    ensures r <==> exists j :: BracketedAt(netloc, j)
  {
    if netloc != [] && netloc[0] == '[' then
      var k := HexRun(netloc[1..]);
      if 1 <= k && 1 + k < |netloc| && netloc[1 + k] == ']' then
        assert BracketedAt(netloc, 1 + k);
        true
      else
        assert forall j :: BracketedAt(netloc, j) ==> j == 1 + k;
        false
    else
      false
  }

  predicate IsAsciiLetter(c: char) {
    'a' <= c <= 'z' || 'A' <= c <= 'Z'
  }

  /** The characters `urlsplit` accepts in a scheme. */
  predicate IsSchemeChar(c: char) {
    IsAsciiLetter(c) || IsDigit(c) || c == '+' || c == '-' || c == '.'
  }

  /** What `add_channel_uri` reads from `urlparse(uri)`: scheme, netloc, and the text after the netloc. */
  datatype Url = Url(scheme: string, netloc: string, tail: string)

  /** `_splitnetloc`: the netloc ends at the first `/`, `?` or `#`. */
  function NetlocEnd(s: string): (j: nat)
    ensures j <= |s| && (j < |s| ==> s[j] in "/?#")
    ensures forall i :: 0 <= i < j ==> s[i] !in "/?#"
  {
    if s == [] || s[0] in "/?#" then 0 else 1 + NetlocEnd(s[1..])
  }

  /** The scheme part of `urlsplit`: a letter and scheme characters before the first `:`. */
  function HasScheme(u: string): bool {
    var i := IndexOf(u, ':');
    0 < i < |u| && IsAsciiLetter(u[0]) && forall k :: 0 <= k < i ==> IsSchemeChar(u[k])
  }

  /**
   * `urlparse(u)`: None where it raises ValueError ("Invalid IPv6 URL", a
   * netloc with only one kind of square bracket).
   */
  function UrlParse(u: string): (r: Option<Url>)
    ensures r.Some? ==> ('[' in r.value.netloc <==> ']' in r.value.netloc)
    ensures r.Some? ==> forall i :: 0 <= i < |r.value.netloc| ==> r.value.netloc[i] !in "/?#"
    ensures r.Some? && r.value.netloc != [] ==>
      |r.value.scheme| + |r.value.netloc| + |r.value.tail| + (if r.value.scheme == [] then 2 else 3) == |u|
    ensures !HasScheme(u) && !StartsWith(u, "//") ==> r == Some(Url("", "", u))
  {
    var i := IndexOf(u, ':');
    if HasScheme(u) then SplitNetloc(Lower(u[..i]), u[i + 1..]) else SplitNetloc("", u)
  }

  /** The part of `urlsplit` after the scheme: a netloc when `r` starts with `//`. */
  function SplitNetloc(scheme: string, r: string): (p: Option<Url>)
    ensures p.Some? ==> p.value.scheme == scheme && ('[' in p.value.netloc <==> ']' in p.value.netloc)
    ensures p.Some? ==> forall i :: 0 <= i < |p.value.netloc| ==> p.value.netloc[i] !in "/?#"
    ensures p.Some? && p.value.netloc != [] ==> |p.value.netloc| + |p.value.tail| + 2 == |r|
    ensures !StartsWith(r, "//") ==> p == Some(Url(scheme, "", r))
  {
    if StartsWith(r, "//") then
      var rest := r[2..];
      var j := NetlocEnd(rest);
      var netloc := rest[..j];
      if ('[' in netloc) != (']' in netloc) then None
      else Some(Url(scheme, netloc, rest[j..]))
    else
      Some(Url(scheme, "", r))
  }

  /** `is_ipv6(url)`; None where `urlparse` raises. */
  function UrlIsIpv6(url: string): (r: Option<bool>)
    ensures r.None? <==> UrlParse(url).None?
    ensures r == Some(true) ==> exists j :: BracketedAt(UrlParse(url).value.netloc, j)
  {
    match UrlParse(url)
    case None => None
    case Some(p) => Some(IsIpv6(p.netloc))
  }

  /** Value of a run of digits and underscores, underscores skipped. */
  function DigitsValue(s: string): nat {
    if s == [] then 0
    else if s[|s| - 1] == '_' then DigitsValue(s[..|s| - 1])
    else 10 * DigitsValue(s[..|s| - 1]) + (if IsDigit(s[|s| - 1]) then s[|s| - 1] as int - '0' as int else 0)
  }

  /** Digits, with single underscores allowed between two digits. */
  predicate WellFormedDigits(s: string) {
    s != [] && IsDigit(s[0]) && IsDigit(s[|s| - 1])
    && forall i :: 0 <= i < |s| ==> IsDigit(s[i]) || (s[i] == '_' && i + 1 < |s| && IsDigit(s[i + 1]))
  }

  /** `int(s)` for base 10 with ASCII digits: stripped, an optional sign, digits. None where it raises ValueError. */
  function ParseInt(s: string): Option<int> {
    var t := Strip(s);
    if t != [] && (t[0] == '+' || t[0] == '-') then
      if WellFormedDigits(t[1..]) then
        var v: int := DigitsValue(t[1..]);
        Some(if t[0] == '-' then -v else v)
      else None
    else if WellFormedDigits(t) then Some(DigitsValue(t))
    else None
  }

  function DigitChar(d: nat): char
    requires d < 10
  {
    ('0' as int + d) as char
  }

  /** The decimal spelling of a natural number. */
  function Decimal(n: nat): (s: string)
    ensures WellFormedDigits(s) && forall i :: 0 <= i < |s| ==> IsDigit(s[i])
  {
    if n < 10 then [DigitChar(n)] else Decimal(n / 10) + [DigitChar(n % 10)]
  }

  lemma {:induction false} DecimalValue(n: nat)
    ensures DigitsValue(Decimal(n)) == n
  {
    if n >= 10 {
      var s := Decimal(n);
      assert s[..|s| - 1] == Decimal(n / 10);
      DecimalValue(n / 10);
    }
  }

  /** `int` reads back the decimal spelling of every natural number. */
  lemma ParseIntDecimal(n: nat)
    ensures ParseInt(Decimal(n)) == Some(n)
  {
    var s := Decimal(n);
    StripStripped(s);
    DecimalValue(n);
  }

  /**
   * `is_port_necessary`: the port written after the last `:` is the default one
   * of the scheme. A netloc ending in `]` is a bare IPv6 literal. The netloc must
   * not be empty: `netloc[-1]` raises IndexError on an empty one.
   */
  function IsPortNecessary(scheme: string, netloc: string): (r: bool)
    requires netloc != []
    ensures r ==> (scheme == "http" || scheme == "https") && netloc[|netloc| - 1] != ']' && ':' in netloc
  {
    match PortOf(netloc)
    case None => false
    case Some(port) => IsDefaultPort(scheme, port)
  }

  /** The number after the last `:` of a netloc that does not end in `]`, when `int` reads one. */
  function PortOf(netloc: string): Option<int>
    requires netloc != []
  {
    if netloc[|netloc| - 1] == ']' then None
    else
      match AfterLast(netloc, ':')
      case None => None
      case Some(t) => ParseInt(t)
  }

  /** `s.rsplit(c, 1)[1]` when `c` occurs in `s`. */
  function AfterLast(s: string, c: char): Option<string> {
    match LastIndexOf(s, c)
    case None => None
    case Some(i) => Some(s[i + 1..])
  }

  predicate IsDefaultPort(scheme: string, port: int) {
    (scheme == "http" && port == 80) || (scheme == "https" && port == 443)
  }

  /** `netloc.rsplit(':', 1)[0]` */
  function StripPort(netloc: string): (r: string)
    ensures |r| <= |netloc|
  {
    match LastIndexOf(netloc, ':')
    case None => netloc
    case Some(i) => netloc[..i]
  }

  lemma LastColon(host: string, d: string)
    requires ':' !in d
    ensures LastIndexOf(host + ":" + d, ':') == Some(|host|)
  {
    var s := host + ":" + d;
    assert s[|host|] == ':';
  }

  lemma DecimalHasNoColon(n: nat)
    ensures ':' !in Decimal(n)
  {
    var d := Decimal(n);
    forall i | 0 <= i < |d| ensures d[i] != ':' {
      assert IsDigit(d[i]);
    }
  }


  /** The port test on a host followed by `:` and a decimal port number. */
  lemma PortNecessaryForDecimal(scheme: string, host: string, n: nat)
    ensures IsPortNecessary(scheme, host + ":" + Decimal(n))
            <==> (scheme == "http" && n == 80) || (scheme == "https" && n == 443)
  {
    var d := Decimal(n);
    var s := host + ":" + d;
    assert LastIndexOf(s, ':') == Some(|host|) by {
      DecimalHasNoColon(n);
      LastColon(host, d);
    }
    assert s[|s| - 1] != ']' by {
      assert s[|s| - 1] == d[|d| - 1] && IsDigit(d[|d| - 1]);
    }
    assert s[|host| + 1..] == d;
    assert AfterLast(s, ':') == Some(d);
    ParseIntDecimal(n);
    assert PortOf(s) == Some(n);
    assert IsPortNecessary(scheme, s) == IsDefaultPort(scheme, n);
  }

  /** Dropping the port of such a netloc gives back the host. */
  lemma StripDecimalPort(host: string, n: nat)
    ensures StripPort(host + ":" + Decimal(n)) == host
  {
    DecimalHasNoColon(n);
    LastColon(host, Decimal(n));
    assert (host + ":" + Decimal(n))[..|host|] == host;
  }

  /**
   * The port test holds exactly when the netloc does not end in `]`, holds a
   * `:`, the text after its last `:` reads as an integer, and that integer is
   * 80 under http or 443 under https.
   */
  lemma PortNecessaryExactly(scheme: string, netloc: string)
    requires netloc != []
    ensures IsPortNecessary(scheme, netloc) <==>
      netloc[|netloc| - 1] != ']' && ':' in netloc
      && var t := netloc[LastIndexOf(netloc, ':').value + 1..];
         ParseInt(t).Some? && ((scheme == "http" && ParseInt(t).value == 80) || (scheme == "https" && ParseInt(t).value == 443))
  {
    if netloc[|netloc| - 1] == ']' {
      assert PortOf(netloc) == None;
    } else if ':' !in netloc {
      assert LastIndexOf(netloc, ':') == None;
      assert PortOf(netloc) == None;
    } else {
      var t := netloc[LastIndexOf(netloc, ':').value + 1..];
      assert AfterLast(netloc, ':') == Some(t);
      assert PortOf(netloc) == ParseInt(t);
    }
  }

  /** A netloc without `:`, or ending in `]`, never counts as carrying a default port. */
  lemma NoPortWithoutColon(scheme: string, netloc: string)
    requires netloc != []
    requires ':' !in netloc || netloc[|netloc| - 1] == ']'
    ensures !IsPortNecessary(scheme, netloc)
  {
  }

  /**
   * The bracket test looks only at the last character: a bracketed IPv6 host
   * followed by `:80` under http loses its port like any other host.
   */
  lemma BracketedHostPortStripped()
    ensures IsPortNecessary("http", "[::1]:80")
    ensures StripPort("[::1]:80") == "[::1]"
  {
    assert "[::1]:80" == "[::1]" + ":" + Decimal(80);
    PortNecessaryForDecimal("http", "[::1]", 80);
    StripDecimalPort("[::1]", 80);
  }

  /**
   * Lines 296-301 of `add_channel_uri`: the uri with a default port removed,
   * rebuilt by `geturl`, or the uri itself. None where the Python raises:
   * ValueError from `urlparse`, or IndexError from `is_port_necessary` on an
   * empty netloc.
   */
  function NormalizedUrl(uri: string): (r: Option<string>)
    ensures r.None? <==> UrlParse(uri).None? || UrlParse(uri).value.netloc == []
    ensures r.Some? ==> |r.value| <= |uri|
  {
    match UrlParse(uri)
    case None => None
    case Some(p) =>
      if p.netloc == [] then None
      else if IsPortNecessary(p.scheme, p.netloc) then Some(p.scheme + "://" + StripPort(p.netloc) + p.tail)
      else Some(uri)
  }

  lemma NoDollarInLower(s: string)
    requires '$' !in s
    ensures '$' !in Lower(s)
  {
  }

  lemma SplitNetlocNoDollar(scheme: string, r: string)
    requires '$' !in scheme && '$' !in r
    requires SplitNetloc(scheme, r).Some?
    ensures var p := SplitNetloc(scheme, r).value; '$' !in p.scheme && '$' !in p.netloc && '$' !in p.tail
  {
    if StartsWith(r, "//") {
      var rest := r[2..];
      var j := NetlocEnd(rest);
      assert '$' !in rest[..j] && '$' !in rest[j..];
    }
  }

  /** Normalising a uri that holds no `$` yields a uri without `$`. */
  lemma NormalizedUrlNoDollar(uri: string)
    requires '$' !in uri
    requires NormalizedUrl(uri).Some?
    ensures '$' !in NormalizedUrl(uri).value
  {
    UrlParseNoDollar(uri);
    var p := UrlParse(uri).value;
    if p.netloc != [] && IsPortNecessary(p.scheme, p.netloc) {
      assert '$' !in StripPort(p.netloc);
      assert NormalizedUrl(uri).value == p.scheme + "://" + StripPort(p.netloc) + p.tail;
    }
  }

  lemma UrlParseNoDollar(uri: string)
    requires '$' !in uri
    ensures UrlParse(uri).Some? ==>
      var p := UrlParse(uri).value; '$' !in p.scheme && '$' !in p.netloc && '$' !in p.tail
  {
    var i := IndexOf(uri, ':');
    if HasScheme(uri) {
      assert '$' !in uri[..i] && '$' !in uri[i + 1..];
      NoDollarInLower(uri[..i]);
      if SplitNetloc(Lower(uri[..i]), uri[i + 1..]).Some? {
        SplitNetlocNoDollar(Lower(uri[..i]), uri[i + 1..]);
      }
    } else if SplitNetloc("", uri).Some? {
      SplitNetlocNoDollar("", uri);
    }
  }

  lemma {:induction false} NetlocEndAt(a: string, t: string)
    requires forall i :: 0 <= i < |a| ==> a[i] !in "/?#"
    requires t == [] || t[0] in "/?#"
    ensures NetlocEnd(a + t) == |a|
  {
    if a != [] {
      assert (a + t)[1..] == a[1..] + t;
      NetlocEndAt(a[1..], t);
    }
  }

  /** A network location `urlparse` reads back unchanged. */
  ghost predicate PlainNetloc(nl: string) {
    forall i :: 0 <= i < |nl| ==> nl[i] !in "/?#[]"
  }

  lemma WebScheme(scheme: string, r: string)
    requires scheme == "http" || scheme == "https"
    ensures IndexOf(scheme + ":" + r, ':') == |scheme|
    ensures HasScheme(scheme + ":" + r)
    ensures (scheme + ":" + r)[..|scheme|] == scheme && (scheme + ":" + r)[|scheme| + 1..] == r
    ensures Lower(scheme) == scheme
  {
    var u := scheme + ":" + r;
    assert u[|scheme|] == ':' && u[..|scheme|] == scheme;
  }

  lemma SplitPlainNetloc(scheme: string, nl: string, tail: string)
    requires PlainNetloc(nl)
    requires tail == [] || tail[0] in "/?#"
    ensures SplitNetloc(scheme, "//" + nl + tail) == Some(Url(scheme, nl, tail))
  {
    var r := "//" + nl + tail;
    var rest := r[2..];
    assert rest == nl + tail;
    NetlocEndAt(nl, tail);
    assert rest[..|nl|] == nl && rest[|nl|..] == tail;
    assert '[' !in nl && ']' !in nl;
  }

  /** `urlparse` of an `http` or `https` URL splits it into scheme, netloc and the rest. */
  lemma UrlParseWeb(scheme: string, nl: string, tail: string)
    requires scheme == "http" || scheme == "https"
    requires PlainNetloc(nl)
    requires tail == [] || tail[0] in "/?#"
    ensures UrlParse(scheme + "://" + nl + tail) == Some(Url(scheme, nl, tail))
  {
    var r := "//" + nl + tail;
    assert scheme + "://" + nl + tail == scheme + ":" + r;
    WebScheme(scheme, r);
    SplitPlainNetloc(scheme, nl, tail);
  }

  /**
   * `http://host:80/a` and `http://host/a` (likewise `https` with 443) are
   * stored as the same uri.
   */
  lemma DefaultPortDropped(scheme: string, host: string, tail: string)
    requires scheme == "http" || scheme == "https"
    requires host != [] && PlainNetloc(host) && ':' !in host
    requires tail == [] || tail[0] in "/?#"
    ensures NormalizedUrl(scheme + "://" + host + ":" + Decimal(if scheme == "http" then 80 else 443) + tail)
            == Some(scheme + "://" + host + tail)
    ensures NormalizedUrl(scheme + "://" + host + tail) == Some(scheme + "://" + host + tail)
  {
    var port: nat := if scheme == "http" then 80 else 443;
    var nl := host + ":" + Decimal(port);
    PlainWithPort(host, port);
    assert scheme + "://" + host + ":" + Decimal(port) + tail == scheme + "://" + nl + tail;
    NormalizedWithPort(scheme, host, port, tail);
    UrlParseWeb(scheme, host, tail);
    NoPortWithoutColon(scheme, host);
  }

  lemma PlainWithPort(host: string, port: nat)
    requires PlainNetloc(host)
    ensures PlainNetloc(host + ":" + Decimal(port))
  {
    var d := Decimal(port);
    forall i | 0 <= i < |d| ensures d[i] !in "/?#[]" {
      assert IsDigit(d[i]);
    }
    assert host + ":" + d == host + (":" + d);
  }

  lemma NormalizedWithPort(scheme: string, host: string, port: nat, tail: string)
    requires scheme == "http" || scheme == "https"
    requires PlainNetloc(host + ":" + Decimal(port))
    requires tail == [] || tail[0] in "/?#"
    requires (scheme == "http" && port == 80) || (scheme == "https" && port == 443)
    ensures NormalizedUrl(scheme + "://" + (host + ":" + Decimal(port)) + tail) == Some(scheme + "://" + host + tail)
  {
    var nl := host + ":" + Decimal(port);
    UrlParseWeb(scheme, nl, tail);
    PortNecessaryForDecimal(scheme, host, port);
    StripDecimalPort(host, port);
  }
}
