/**
 The two address splitters: `split_host_port`, which validates, and the one inside
 `connect_with_source`, which only extracts the TLS server name.
 */
module HostPort {
  import opened Wrappers

  datatype SplitError = UnterminatedLiteral | MissingPort | MissingHost | InvalidPort

  /** `str::split_once`: cut at the first occurrence. */
  function SplitOnce(s: string, c: char): (r: Option<(string, string)>)
    ensures r.None? <==> c !in s
    ensures r.Some? ==> c !in r.value.0 && s == r.value.0 + [c] + r.value.1
  {
    if s == "" then None
    else if s[0] == c then Some(("", s[1..]))
    else
      match SplitOnce(s[1..], c)
      case None => None
      case Some((before, after)) => Some(([s[0]] + before, after))
  }

  /** `str::rsplit_once`: cut at the last occurrence. */
  function RSplitOnce(s: string, c: char): (r: Option<(string, string)>)
    ensures r.None? <==> c !in s
    ensures r.Some? ==> c !in r.value.1 && s == r.value.0 + [c] + r.value.1
  {
    if s == "" then None
    else
      var last := |s| - 1;
      if s[last] == c then Some((s[..last], ""))
      else
        match RSplitOnce(s[..last], c)
        case None => None
        case Some((before, after)) => Some((before, after + [s[last]]))
  }

  lemma {:induction false} SplitOnceUnique(before: string, c: char, after: string)
    requires c !in before
    ensures SplitOnce(before + [c] + after, c) == Some((before, after))
  {
    var s := before + [c] + after;
    if before == "" {
      assert s[1..] == after;
    } else {
      assert s[1..] == before[1..] + [c] + after;
      SplitOnceUnique(before[1..], c, after);
      assert before == [s[0]] + before[1..];
    }
  }

  lemma {:induction false} RSplitOnceUnique(before: string, c: char, after: string)
    requires c !in after
    ensures RSplitOnce(before + [c] + after, c) == Some((before, after))
  {
    var s, last := before + [c] + after, |before| + |after|;
    if after == "" {
      assert s[..last] == before;
    } else {
      assert s[..last] == before + [c] + after[..|after| - 1];
      RSplitOnceUnique(before, c, after[..|after| - 1]);
      assert after == after[..|after| - 1] + [s[last]];
    }
  }

  // ---------- the port ----------

  const U16_MAX: nat := 65535

  predicate IsDigit(c: char) {
    '0' <= c <= '9'
  }

  function Digit(c: char): nat
    requires IsDigit(c)
  {
    c as int - '0' as int
  }

  predicate AllDigits(s: string) {
    forall i :: 0 <= i < |s| ==> IsDigit(s[i])
  }

  /** The number a digit string denotes, without bound, continuing from `acc`. */
  function Value(s: string, acc: nat): nat
    requires AllDigits(s)
  {
    if s == "" then acc else Value(s[1..], acc * 10 + Digit(s[0]))
  }

  /** The checked accumulation of `str::parse::<u16>`. */
  function ParseDigits(s: string, acc: nat): Option<nat> {
    if s == "" then Some(acc)
    else if !IsDigit(s[0]) || acc * 10 + Digit(s[0]) > U16_MAX then None
    else ParseDigits(s[1..], acc * 10 + Digit(s[0]))
  }

  /** `str::parse::<u16>`: empty text and a lone sign are errors, one leading `+` is skipped. */
  function ParseU16(s: string): Option<nat> {
    if s == "" || s == "+" || s == "-" then None
    else if s[0] == '+' then ParseDigits(s[1..], 0)
    else ParseDigits(s, 0)
  }

  predicate ValidPort(port: string) {
    ParseU16(port).Some? && ParseU16(port) != Some(0)
  }

  lemma ValueGrows(s: string, acc: nat)
    requires AllDigits(s)
    ensures Value(s, acc) >= acc
  {
  }

  lemma {:induction false} ParseDigitsMeaning(s: string, acc: nat)
    requires acc <= U16_MAX
    ensures ParseDigits(s, acc).Some? <==> AllDigits(s) && Value(s, acc) <= U16_MAX
    ensures ParseDigits(s, acc).Some? ==> ParseDigits(s, acc) == Some(Value(s, acc))
  {
    if s != "" && IsDigit(s[0]) {
      assert AllDigits(s) <==> AllDigits(s[1..]) by {
        assert s == [s[0]] + s[1..];
      }
      var next := acc * 10 + Digit(s[0]);
      if next <= U16_MAX {
        ParseDigitsMeaning(s[1..], next);
      } else if AllDigits(s) {
        ValueGrows(s[1..], next);
      }
    }
  }

  /** The digits of a port text: everything after an optional `+`. */
  function Unsigned(port: string): string {
    if port != "" && port[0] == '+' then port[1..] else port
  }

  /** Accepted ports are an optional `+`, any number of leading zeros, and a value in 1..65535. */
  lemma ValidPortMeaning(port: string)
    ensures ValidPort(port) <==>
            Unsigned(port) != "" && AllDigits(Unsigned(port)) && 1 <= Value(Unsigned(port), 0) <= 65535
  {
    ParseDigitsMeaning(Unsigned(port), 0);
    if port == "-" {
      assert !IsDigit(Unsigned(port)[0]);
    }
  }

  /** A number as it is usually written. */
  function Decimal(n: nat): (s: string)
    ensures s != "" && s[0] in "0123456789"
  {
    if n < 10 then ["0123456789"[n]] else Decimal(n / 10) + ["0123456789"[n % 10]]
  }

  lemma {:induction false} ValueAppend(s: string, c: char, acc: nat)
    requires AllDigits(s) && IsDigit(c)
    ensures AllDigits(s + [c]) && Value(s + [c], acc) == Value(s, acc) * 10 + Digit(c)
  {
    if s == "" {
      assert s + [c] == [c] && [c][1..] == "";
      assert Value("", acc * 10 + Digit(c)) == acc * 10 + Digit(c);
    } else {
      assert (s + [c])[1..] == s[1..] + [c];
      ValueAppend(s[1..], c, acc * 10 + Digit(s[0]));
    }
  }

  lemma DigitOf(d: nat)
    requires d < 10
    ensures IsDigit("0123456789"[d]) && Digit("0123456789"[d]) == d
  {
  }

  lemma {:induction false} DecimalValue(n: nat)
    ensures AllDigits(Decimal(n)) && Value(Decimal(n), 0) == n
  {
    DigitOf(n % 10);
    if n >= 10 {
      DecimalValue(n / 10);
      ValueAppend(Decimal(n / 10), "0123456789"[n % 10], 0);
    } else {
      ValueAppend("", "0123456789"[n], 0);
      assert [] + ["0123456789"[n]] == Decimal(n);
    }
  }

  /** Every number in range is accepted as it is usually written, with its value; no other number is. */
  lemma DecimalPorts(n: nat)
    ensures ParseU16(Decimal(n)) == if n <= 65535 then Some(n) else None
    ensures ValidPort(Decimal(n)) <==> 1 <= n <= 65535
  {
    DecimalValue(n);
    ParseDigitsMeaning(Decimal(n), 0);
  }

  lemma ValidPortHasNoColon(port: string)
    requires ValidPort(port)
    ensures ':' !in port
  {
    ValidPortMeaning(port);
    assert port == Unsigned(port) || port == "+" + Unsigned(port);
  }

  // ---------- the splitters ----------

  predicate Bracketed(addr: string) {
    addr != "" && addr[0] == '['
  }

  /** `split_host_port`. */
  function SplitHostPort(addr: string): Result<(string, string), SplitError> {
    if Bracketed(addr) then
      match SplitOnce(addr[1..], ']')
      case None => Err(UnterminatedLiteral)
      case Some((host, after)) =>
        if after != "" && after[0] == ':' then CheckParts(host, after[1..]) else Err(MissingPort)
    else
      match RSplitOnce(addr, ':')
      case None => Err(MissingPort)
      case Some((host, port)) => CheckParts(host, port)
  }

  function CheckParts(host: string, port: string): Result<(string, string), SplitError> {
    if host == "" then Err(MissingHost)
    else if ValidPort(port) then Ok((host, port))
    else Err(InvalidPort)
  }

  /** The host extraction of `connect_with_source`: no check of the port, or of an empty host. */
  function ExtractHost(addr: string): Result<string, SplitError> {
    if Bracketed(addr) then
      match SplitOnce(addr[1..], ']')
      case None => Err(UnterminatedLiteral)
      case Some((host, _)) => Ok(host)
    else
      match RSplitOnce(addr, ':')
      case None => Err(MissingPort)
      case Some((host, _)) => Ok(host)
  }

  function Join(bracketed: bool, host: string, port: string): string {
    if bracketed then "[" + host + "]:" + port else host + ":" + port
  }

  predicate Accepted(addr: string) {
    SplitHostPort(addr).Ok?
  }

  /** Splitting loses nothing: the parts, joined in the syntax of the input, give the input back. */
  lemma SplitThenJoin(addr: string)
    requires Accepted(addr)
    ensures var (host, port) := SplitHostPort(addr).value;
            addr == Join(Bracketed(addr), host, port) && host != "" && ValidPort(port)
  {
    hide ValidPort, SplitOnce, RSplitOnce;
    if Bracketed(addr) {
      var (host, after) := SplitOnce(addr[1..], ']').value;
      assert after == ":" + after[1..];
      assert addr == "[" + addr[1..];
    }
  }

  /** A printed pair reads back as itself exactly when the host fits the syntax and the port is valid. */
  lemma JoinThenSplit(bracketed: bool, host: string, port: string)
    ensures SplitHostPort(Join(bracketed, host, port)) == Ok((host, port)) <==>
            host != "" && ValidPort(port) && (if bracketed then ']' !in host else host[0] != '[')
  {
    var addr := Join(bracketed, host, port);
    if bracketed {
      assert addr[1..] == host + [']'] + (":" + port);
      if ']' !in host {
        SplitOnceUnique(host, ']', ":" + port);
        assert (":" + port)[1..] == port;
      }
    } else if Bracketed(addr) {
      assert |addr| == |host| + 1 + |port|;
      if Accepted(addr) {
        SplitThenJoin(addr);
        var (h, p) := SplitHostPort(addr).value;
        assert |addr| == |h| + 3 + |p|;
      }
    } else {
      assert addr == host + [':'] + port;
      if ValidPort(port) {
        ValidPortHasNoColon(port);
        RSplitOnceUnique(host, ':', port);
      }
    }
  }

  /** An address has at most one reading: acceptance is exactly being a well-formed print. */
  lemma AcceptedIffPrinted(addr: string, host: string, port: string)
    ensures SplitHostPort(addr) == Ok((host, port)) <==>
            addr == Join(Bracketed(addr), host, port)
            && host != "" && ValidPort(port) && (Bracketed(addr) ==> ']' !in host)
  {
    if SplitHostPort(addr) == Ok((host, port)) {
      SplitThenJoin(addr);
    } else {
      JoinThenSplit(Bracketed(addr), host, port);
      if addr == Join(Bracketed(addr), host, port) && host != "" && !Bracketed(addr) {
        assert addr[0] == host[0];
      }
    }
  }

  lemma BracketedCut(addr: string, host: string, port: string)
    requires Bracketed(addr)
    ensures addr == Join(true, host, port) && ']' !in host <==>
            SplitOnce(addr[1..], ']') == Some((host, ":" + port))
  {
    hide SplitOnce;
    if addr == Join(true, host, port) && ']' !in host {
      assert addr[1..] == host + [']'] + (":" + port);
      SplitOnceUnique(host, ']', ":" + port);
    }
  }

  lemma PlainCut(addr: string, host: string, port: string)
    ensures addr == Join(false, host, port) && ':' !in port <==> RSplitOnce(addr, ':') == Some((host, port))
  {
    hide RSplitOnce;
    if addr == Join(false, host, port) && ':' !in port {
      assert addr == host + [':'] + port;
      RSplitOnceUnique(host, ':', port);
    }
  }

  /** The address has this host and port in its own syntax, whether or not they are acceptable. */
  predicate Reads(addr: string, host: string, port: string) {
    addr == Join(Bracketed(addr), host, port) && if Bracketed(addr) then ']' !in host else ':' !in port
  }

  lemma ReadsIff(addr: string, host: string, port: string)
    ensures Reads(addr, host, port) ==> SplitHostPort(addr) == CheckParts(host, port)
  {
    hide SplitOnce, RSplitOnce, CheckParts, Join;
    if Bracketed(addr) {
      BracketedCut(addr, host, port);
      assert (":" + port)[1..] == port;
    } else {
      PlainCut(addr, host, port);
    }
  }

  /** What is not refused for its form has a reading. */
  lemma FormHasReading(addr: string) returns (host: string, port: string)
    requires SplitHostPort(addr).Ok? || SplitHostPort(addr).error in {MissingHost, InvalidPort}
    ensures Reads(addr, host, port)
  {
    hide SplitOnce, RSplitOnce, CheckParts, Join;
    if Bracketed(addr) {
      var cut := SplitOnce(addr[1..], ']').value;
      host, port := cut.0, cut.1[1..];
      assert cut.1 == ":" + port;
      BracketedCut(addr, host, port);
    } else {
      var cut := RSplitOnce(addr, ':').value;
      host, port := cut.0, cut.1;
      PlainCut(addr, host, port);
    }
  }

  /** Why an address is refused. */
  lemma RefusedBecause(addr: string)
    ensures SplitHostPort(addr) == Err(UnterminatedLiteral) <==> Bracketed(addr) && ']' !in addr[1..]
    ensures SplitHostPort(addr) == Err(MissingHost) <==> exists port :: Reads(addr, "", port)
    ensures SplitHostPort(addr) == Err(InvalidPort) <==>
            exists host, port :: Reads(addr, host, port) && host != "" && !ValidPort(port)
  {
    hide ValidPort, SplitOnce, RSplitOnce, Reads;
    forall host, port | Reads(addr, host, port) ensures SplitHostPort(addr) == CheckParts(host, port) {
      ReadsIff(addr, host, port);
    }
    if SplitHostPort(addr).Err? && SplitHostPort(addr).error in {MissingHost, InvalidPort} {
      var host, port := FormHasReading(addr);
    }
  }

  /** The host that is extracted: up to the first `]`, or else up to the last colon, whatever follows. */
  lemma ExtractedIff(addr: string, host: string)
    ensures Bracketed(addr) ==>
              (ExtractHost(addr) == Ok(host) <==>
                 ']' !in host && exists rest :: addr == "[" + host + "]" + rest)
    ensures !Bracketed(addr) ==>
              (ExtractHost(addr) == Ok(host) <==>
                 exists port :: ':' !in port && addr == host + ":" + port)
    ensures ExtractHost(addr) == Err(UnterminatedLiteral) <==> Bracketed(addr) && ']' !in addr[1..]
    ensures ExtractHost(addr) == Err(MissingPort) <==> !Bracketed(addr) && ':' !in addr
  {
    hide SplitOnce, RSplitOnce;
    if Bracketed(addr) {
      assert addr == "[" + addr[1..];
      var cut := SplitOnce(addr[1..], ']');
      if cut.Some? {
        assert addr == "[" + cut.value.0 + "]" + cut.value.1;
      }
      forall rest | addr == "[" + host + "]" + rest && ']' !in host ensures cut == Some((host, rest)) {
        assert addr[1..] == host + [']'] + rest;
        SplitOnceUnique(host, ']', rest);
      }
    } else {
      var cut := RSplitOnce(addr, ':');
      if cut.Some? {
        assert addr == cut.value.0 + ":" + cut.value.1;
      }
      forall port | ':' !in port && addr == host + ":" + port ensures cut == Some((host, port)) {
        assert addr == host + [':'] + port;
        RSplitOnceUnique(host, ':', port);
      }
    }
  }

  /** The two splitters agree on every accepted address; beyond them, extraction checks neither part. */
  lemma SplittersAgree(addr: string)
    ensures Accepted(addr) ==> ExtractHost(addr) == Ok(SplitHostPort(addr).value.0)
    ensures SplitHostPort(addr) == Err(MissingHost) ==> ExtractHost(addr) == Ok("")
    ensures ExtractHost(addr).Err? ==> SplitHostPort(addr) == Err(ExtractHost(addr).error)
  {
  }
}
