/** ParseSTUNURL of pkg/stun/stun.go: a classifier for server strings of the
    forms "stun(s):host:port", "stun(s):host", "host:port" and "host" (the URI
    scheme of section 3.1 of RFC 7064, loosely).  Only the scheme and the host
    of the resulting url.URL are ever set. */
module StunUrl {
  import opened StunErrors

  const DefaultPort: string := "3478"

  /** The two fields of url.URL that ParseSTUNURL sets. */
  datatype Url = Url(scheme: string, host: string)

  // ---------------------------------------------------------------- strconv.Atoi

  predicate IsDigit(c: char) {
    '0' <= c <= '9'
  }

  predicate AllDigits(s: string) {
    forall i :: 0 <= i < |s| ==> IsDigit(s[i])
  }

  /** The value of a string of decimal digits, most significant first. */
  function DigitsValue(s: string): nat
    requires AllDigits(s)
  {
    if s == [] then 0
    else DigitsValue(s[..|s| - 1]) * 10 + (s[|s| - 1] as int - '0' as int)
  }

  /** The decimal digits of `n`, without leading zeros. */
  function Decimal(n: nat): (s: string)
    ensures |s| > 0
  {
    if n < 10 then [('0' as int + n) as char]
    else Decimal(n / 10) + [('0' as int + n % 10) as char]
  }

  lemma {:induction false} DecimalValue(n: nat)
    ensures AllDigits(Decimal(n)) && DigitsValue(Decimal(n)) == n
  {
    if n >= 10 {
      DecimalValue(n / 10);
      var s := Decimal(n);
      assert s[..|s| - 1] == Decimal(n / 10);
    }
  }

  const MinInt: int := -0x8000_0000_0000_0000
  const MaxInt: int := 0x7FFF_FFFF_FFFF_FFFF

  /** strconv.Atoi on a 64-bit platform: an optional sign and at least one
      decimal digit, with a value that fits in an int.  Anything else is an
      error (a syntax error or a range error; the caller does not tell them
      apart). */
  function Atoi(s: string): (r: Option<int>)
    ensures r.Some? ==> MinInt <= r.value <= MaxInt
    ensures r.Some? ==> |s| > 0 && (IsDigit(s[0]) || s[0] == '+' || s[0] == '-')
  {
    if s == [] then None
    else
      var neg := s[0] == '-';
      var digits := if s[0] == '-' || s[0] == '+' then s[1..] else s;
      if digits == [] || !AllDigits(digits) then None
      else
        var v: int := if neg then -(DigitsValue(digits) as int) else DigitsValue(digits);
        if v < MinInt || v > MaxInt then None else Some(v)
  }

  datatype Option<T> = None | Some(value: T)

  // ---------------------------------------------------------------- validatePort

  /** The three ways validatePort ends: nil, errInvalidPortRange, or the error
      of Atoi. */
  datatype PortCheck = PortOk | PortOutOfRange | NotAnInteger

  function ValidatePort(port: string): (c: PortCheck)
    ensures c == NotAnInteger <==> Atoi(port).None?
    ensures c == PortOk <==> Atoi(port).Some? && 1 <= Atoi(port).value <= 65535
    ensures c == PortOutOfRange <==> Atoi(port).Some? && !(1 <= Atoi(port).value <= 65535)
  {
    match Atoi(port)
    case None => NotAnInteger
    case Some(p) => if p < 1 || p > 65535 then PortOutOfRange else PortOk
  }

  /** Every port number from 1 to 65535, written in decimal, is accepted, and
      every larger number that fits in an int is out of range. */
  lemma ValidatePortDecimal(n: nat)
    requires n <= MaxInt
    ensures 1 <= n <= 65535 ==> ValidatePort(Decimal(n)) == PortOk
    ensures n == 0 || n > 65535 ==> ValidatePort(Decimal(n)) == PortOutOfRange
  {
    DecimalValue(n);
    var s := Decimal(n);
    assert IsDigit(s[0]);
  }

  // ---------------------------------------------------------------- isSTUNScheme

  predicate IsStunScheme(scheme: string) {
    scheme == "stun" || scheme == "stuns"
  }

  // ---------------------------------------------------------------- ParseSTUNURL

  /** strings.Index: the first position of `c`, or -1. */
  function Index(s: string, c: char): (r: int)
    ensures r == -1 <==> c !in s
    ensures r != -1 ==> 0 <= r < |s| && s[r] == c
    ensures forall j :: 0 <= j < r ==> s[j] != c
  {
    if s == [] then -1
    else if s[0] == c then 0
    else
      var r := Index(s[1..], c);
      if r == -1 then -1 else r + 1
  }

  /** strings.LastIndex: the last position of `c`, or -1. */
  function LastIndex(s: string, c: char): (r: int)
    ensures r == -1 <==> c !in s
    ensures r != -1 ==> 0 <= r < |s| && s[r] == c
    ensures forall j :: r < j < |s| ==> s[j] != c
  {
    if s == [] then -1
    else if s[|s| - 1] == c then |s| - 1
    else LastIndex(s[..|s| - 1], c)
  }

  /** The "scheme:host" reading of a string whose first colon is at `first`. */
  function SchemeAndHost(raw: string, first: nat): Result<Url>
    requires first < |raw|
  {
    if IsStunScheme(raw[..first]) then Success(Url(raw[..first], raw[first + 1..]))
    else Failure(NotStunUriScheme)
  }

  /** The reading of a string whose only colon is at `i`: "host:port" when
      the suffix is an integer, "scheme:host" otherwise. */
  function OneColon(raw: string, i: nat): Result<Url>
    requires i < |raw|
  {
    match ValidatePort(raw[i + 1..])
    case PortOk => Success(Url("stun", raw))
    case PortOutOfRange => Failure(InvalidPortRange)
    case NotAnInteger => SchemeAndHost(raw, i)
  }

  /** `raw` has exactly one colon, at position `i`. */
  ghost predicate OnlyColonAt(raw: string, i: int) {
    0 <= i < |raw| && raw[i] == ':' && forall j :: 0 <= j < |raw| && j != i ==> raw[j] != ':'
  }

  /** The first colon of `raw` is at `i` and another one follows it. */
  ghost predicate ColonsFrom(raw: string, i: int) {
    0 <= i < |raw| && raw[i] == ':' && (forall j :: 0 <= j < i ==> raw[j] != ':')
    && exists k :: i < k < |raw| && raw[k] == ':'
  }

  /** ParseSTUNURL: no colon means a bare host that gets the default port; one
      colon is "host:port" when the suffix is an integer (in range, or the call
      fails) and "scheme:host" otherwise; two or more colons are
      "scheme:host:port".  Any scheme must be "stun" or "stuns". */
  function ParseStunUrl(raw: string): (r: Result<Url>)
    ensures ':' !in raw ==> r == Success(Url("stun", raw + ":" + DefaultPort))
    ensures forall i :: OnlyColonAt(raw, i) ==> r == OneColon(raw, i)
    ensures forall i :: ColonsFrom(raw, i) ==> r == SchemeAndHost(raw, i)
  {
    var first := Index(raw, ':');
    var last := LastIndex(raw, ':');
    ColonPositions(raw, first, last);
    if first == -1 then Success(Url("stun", raw + ":" + DefaultPort))
    else if first == last then OneColon(raw, first)
    else SchemeAndHost(raw, first)
  }

  /** What Index and LastIndex agreeing or not says about the colons. */
  lemma ColonPositions(raw: string, first: int, last: int)
    requires first == Index(raw, ':') && last == LastIndex(raw, ':')
    ensures first != -1 && first == last ==> OnlyColonAt(raw, first)
    ensures first != -1 && first != last ==> ColonsFrom(raw, first)
    ensures forall i :: OnlyColonAt(raw, i) ==> i == first && first == last
    ensures forall i :: ColonsFrom(raw, i) ==> i == first && first != last
  {
  }

  // ---------------------------------------------------------------- consequences

  /** "host:port" with a port from 1 to 65535 keeps the whole string as host. */
  lemma HostPortAccepted(host: string, port: nat)
    requires ':' !in host && 1 <= port <= 65535
    ensures ParseStunUrl(host + ":" + Decimal(port)) == Success(Url("stun", host + ":" + Decimal(port)))
  {
    var raw := host + ":" + Decimal(port);
    ValidatePortDecimal(port);
    DecimalValue(port);
    assert raw[..|host|] == host && raw[|host| + 1..] == Decimal(port);
    assert forall k :: |host| < k < |raw| ==> IsDigit(raw[k]);
    assert OnlyColonAt(raw, |host|);
  }

  /** "host:port" with an integer port above 65535 is an error, not a host. */
  lemma HostPortOutOfRange(host: string, port: nat)
    requires ':' !in host && 65535 < port <= MaxInt
    ensures ParseStunUrl(host + ":" + Decimal(port)) == Failure(InvalidPortRange)
  {
    var raw := host + ":" + Decimal(port);
    ValidatePortDecimal(port);
    DecimalValue(port);
    assert raw[..|host|] == host && raw[|host| + 1..] == Decimal(port);
    assert forall k :: |host| < k < |raw| ==> IsDigit(raw[k]);
    assert OnlyColonAt(raw, |host|);
  }

  /** The server the diagnosis uses by default is a "host:port" string. */
  lemma DefaultServerParses()
    ensures ParseStunUrl("stun.l.google.com:19302") == Success(Url("stun", "stun.l.google.com:19302"))
  {
    assert Decimal(19302) == "19302";
    assert "stun.l.google.com:19302" == "stun.l.google.com" + ":" + Decimal(19302);
    HostPortAccepted("stun.l.google.com", 19302);
  }

  /** Every URL the parse returns has scheme "stun" or "stuns"; the scheme
      error comes exactly when the text before the first colon is read as a
      scheme (two colons, or a suffix that is not an integer) and is neither. */
  lemma ParsedSchemeIsStun(raw: string)
    ensures ParseStunUrl(raw).Success? ==> IsStunScheme(ParseStunUrl(raw).value.scheme)
    ensures var first := Index(raw, ':');
      ParseStunUrl(raw) == Failure(NotStunUriScheme) <==>
        first != -1 && !IsStunScheme(raw[..first]) &&
        (first != LastIndex(raw, ':') || ValidatePort(raw[first + 1..]) == NotAnInteger)
  {
    var first := Index(raw, ':');
    if first != -1 {
      if first != LastIndex(raw, ':') || ValidatePort(raw[first + 1..]) == NotAnInteger {
        SchemeRead(raw, first);
      } else {
        var port := ValidatePort(raw[first + 1..]);
        OneColonRead(raw, first);
        assert port == PortOk ==> OneColon(raw, first) == Success(Url("stun", raw));
      }
    }
  }

  /** The branches that read the text before the first colon as a scheme. */
  lemma SchemeRead(raw: string, first: int)
    requires first == Index(raw, ':') && first != -1
    requires first != LastIndex(raw, ':') || ValidatePort(raw[first + 1..]) == NotAnInteger
    ensures ParseStunUrl(raw) == SchemeAndHost(raw, first)
  {
  }

  /** The branch of exactly one colon. */
  lemma OneColonRead(raw: string, first: int)
    requires first == Index(raw, ':') && first != -1 && first == LastIndex(raw, ':')
    ensures ParseStunUrl(raw) == OneColon(raw, first)
  {
  }

  /** "scheme:host" gets no default port. */
  lemma SchemeHostKeepsHost(host: string)
    requires ':' !in host && Atoi(host).None?
    ensures ParseStunUrl("stun:" + host) == Success(Url("stun", host))
  {
    var raw := "stun:" + host;
    assert raw[..4] == "stun" && raw[5..] == host;
    assert ':' !in raw[..4];
    assert OnlyColonAt(raw, 4);
  }
}
