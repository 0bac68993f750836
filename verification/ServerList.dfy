/** The server-address parser: a separated list of addresses to `host:port` strings, and back. */
module ServerList {
  import opened Wrappers
  import opened Decimal

  datatype Error = EmptyAddress | EmptyList | AllIllegal

  // ---------------------------------------------------------------- string functions

  predicate IsSeparator(c: char) {
    c == ',' || c == ';' || c == '\n'
  }

  /** The Unicode White_Space property, which `str::trim` removes. */
  predicate IsWhitespace(c: char) {
    var n := c as int;
    || 0x09 <= n <= 0x0d || n == 0x20 || n == 0x85 || n == 0xa0 || n == 0x1680
    || 0x2000 <= n <= 0x200a || n == 0x2028 || n == 0x2029 || n == 0x202f || n == 0x205f || n == 0x3000
  }

  function TrimStart(s: string): string {
    if s != [] && IsWhitespace(s[0]) then TrimStart(s[1..]) else s
  }

  function TrimEnd(s: string): string {
    if s != [] && IsWhitespace(s[|s| - 1]) then TrimEnd(s[..|s| - 1]) else s
  }

  function Trim(s: string): string {
    TrimEnd(TrimStart(s))
  }

  function Split(s: string): (parts: seq<string>)
    ensures parts != []
  {
    if s == [] then [[]]
    else
      var rest := Split(s[1..]);
      if IsSeparator(s[0]) then [[]] + rest else [[s[0]] + rest[0]] + rest[1..]
  }

  function Find(s: string, c: char): (at: Option<nat>)
    ensures at.Some? ==> at.value < |s| && s[at.value] == c && c !in s[..at.value]
    ensures at.None? ==> c !in s
  {
    if s == [] then None
    else if s[0] == c then Some(0)
    else
      var rest := Find(s[1..], c);
      if rest.None? then None else Some(rest.value + 1)
  }

  // ---------------------------------------------------------------- the parser

  datatype HostPort = HostPort(host: string, port: Option<nat>)

  function ParseHostPort(input: string): HostPort {
    var bracketEnd := Find(input, ']');
    if input != [] && input[0] == '[' && bracketEnd.Some? then
      var rest := input[bracketEnd.value + 1..];
      HostPort(input[..bracketEnd.value + 1],
               if rest != [] && rest[0] == ':' then ParseU16(rest[1..]) else None)
    else
      var colon := Find(input, ':');
      if colon.None? then HostPort(input, None)
      else if colon.value == 0 then HostPort(input, None)
      else HostPort(input[..colon.value], ParseU16(input[colon.value + 1..]))
  }

  /** The non-empty trimmed segments of an address string. */
  function NonEmptyTrimmed(parts: seq<string>): seq<string> {
    if parts == [] then []
    else
      (if Trim(parts[0]) == [] then [] else [Trim(parts[0])]) + NonEmptyTrimmed(parts[1..])
  }

  function Segments(serverAddr: string): seq<string> {
    NonEmptyTrimmed(Split(Trim(serverAddr)))
  }

  function Printed(segment: string, defaultPort: nat): string {
    var hp := ParseHostPort(segment);
    hp.host + ":" + PrintNat(if hp.port.Some? then hp.port.value else defaultPort)
  }

  function PrintAll(segments: seq<string>, defaultPort: nat): seq<string> {
    if segments == [] then []
    else [Printed(segments[0], defaultPort)] + PrintAll(segments[1..], defaultPort)
  }

  function ParseServerList(serverAddr: string, defaultPort: nat): Result<seq<string>, Error> {
    var result := PrintAll(Segments(serverAddr), defaultPort);
    if result == [] then Failure(EmptyAddress) else Success(result)
  }

  datatype Endpoint = Endpoint(host: string, port: nat)

  function WithPorts(servers: seq<string>): seq<Endpoint> {
    if servers == [] then []
    else
      var hp := ParseHostPort(servers[0]);
      (if hp.port.Some? then [Endpoint(hp.host, hp.port.value)] else []) + WithPorts(servers[1..])
  }

  function ParseHostPortVec(servers: seq<string>): Result<seq<Endpoint>, Error> {
    if servers == [] then Failure(EmptyList)
    else if WithPorts(servers) == [] then Failure(AllIllegal)
    else Success(WithPorts(servers))
  }

  // ---------------------------------------------------------------- what is parsed back

  predicate LedByColon(segment: string) {
    segment != [] && segment[0] == ':'
  }

  /** A host as it can stand before a port: a bracketed literal, which ends with its first closing
      bracket, or a name without a colon. */
  predicate IsHost(host: string) {
    && host != []
    && if host[0] == '[' && ']' in host then Find(host, ']') == Some(|host| - 1) else ':' !in host
  }

  /** The endpoint a segment names: its host, and its own port or the default. */
  function EndpointOf(segment: string, defaultPort: nat): Endpoint {
    var hp := ParseHostPort(segment);
    Endpoint(hp.host, if hp.port.Some? then hp.port.value else defaultPort)
  }

  /** The endpoints of the segments that do not begin with a colon, in order. */
  function EndpointsOf(segments: seq<string>, defaultPort: nat): seq<Endpoint> {
    if segments == [] then []
    else
      (if LedByColon(segments[0]) then [] else [EndpointOf(segments[0], defaultPort)])
      + EndpointsOf(segments[1..], defaultPort)
  }

  lemma FindUnique(s: string, c: char, at: nat)
    requires at < |s| && s[at] == c && c !in s[..at]
    ensures Find(s, c) == Some(at)
  {
  }

  lemma BracketedFinds(host: string, digits: string)
    requires host != [] && Find(host, ']') == Some(|host| - 1)
    ensures Find(host + ":" + digits, ']') == Some(|host| - 1)
  {
    hide Find;
    var s := host + ":" + digits;
    assert s[..|host| - 1] == host[..|host| - 1];
    FindUnique(s, ']', |host| - 1);
  }

  lemma NamedFinds(host: string, digits: string)
    requires ':' !in host
    ensures Find(host + ":" + digits, ':') == Some(|host|)
  {
    hide Find;
    var s := host + ":" + digits;
    assert s[..|host|] == host;
    FindUnique(s, ':', |host|);
  }

  lemma NoBracketAppended(host: string, digits: string)
    requires ']' !in host && AllDigits(digits)
    ensures Find(host + ":" + digits, ']').None?
  {
    var s := host + ":" + digits;
    forall i | 0 <= i < |s| ensures s[i] != ']' {
      if i < |host| {
        assert s[i] in host;
      } else if i > |host| {
        assert IsDigit(digits[i - |host| - 1]);
      }
    }
  }

  /** A printed host and port parse back, bracketed or not. */
  lemma PrintedHostParsesBack(host: string, port: nat)
    requires IsHost(host) && port <= 65535
    ensures ParseHostPort(host + ":" + PrintNat(port)) == HostPort(host, Some(port))
  {
    hide Find, PrintNat, ParseU16, Value;
    PrintedParses(port);
    PrintedValue(port);
    var digits := PrintNat(port);
    var s := host + ":" + digits;
    assert s[..|host|] == host && s[|host| + 1..] == digits && s[|host|] == ':';
    if host[0] == '[' && ']' in host {
      BracketedFinds(host, digits);
      assert s[|host|..] == s[|host|..|host| + 1] + digits;
      assert s[|host|..][1..] == digits;
    } else {
      NamedFinds(host, digits);
      if host[0] == '[' {
        NoBracketAppended(host, digits);
      }
    }
  }

  /** Every segment that does not begin with a colon names a host. */
  lemma ParsedHostIsHost(segment: string)
    requires segment != [] && !LedByColon(segment)
    ensures IsHost(ParseHostPort(segment).host)
    ensures ParseHostPort(segment).host <= segment
    ensures ParseHostPort(segment).port.Some? ==> ParseHostPort(segment).port.value <= 65535
  {
    var bracketEnd := Find(segment, ']');
    if segment[0] == '[' && bracketEnd.Some? {
      var host := segment[..bracketEnd.value + 1];
      assert host[..bracketEnd.value] == segment[..bracketEnd.value];
      FindUnique(host, ']', bracketEnd.value);
      assert host[bracketEnd.value] in host;
    } else {
      var colon := Find(segment, ':');
      if colon.Some? {
        var host := segment[..colon.value];
        assert ']' in host ==> ']' in segment;
      }
    }
  }

  /** A segment that begins with a colon is taken whole as a host and never gets a port. */
  lemma LedByColonLosesItsPort(segment: string, defaultPort: nat)
    requires LedByColon(segment)
    ensures ParseHostPort(segment) == HostPort(segment, None)
    ensures Printed(segment, defaultPort) == segment + ":" + PrintNat(defaultPort)
    ensures LedByColon(Printed(segment, defaultPort))
  {
    FindUnique(segment, ':', 0);
  }

  /** Exactly when a segment is taken whole as a host: a bracketed one when it ends with its first
      closing bracket, any other when it is led by a colon or has none. */
  lemma HostIsWholeIff(segment: string)
    ensures ParseHostPort(segment).host == segment <==>
            if segment != [] && segment[0] == '[' && ']' in segment then
              ']' !in segment[..|segment| - 1]
            else
              LedByColon(segment) || ':' !in segment
  {
    hide Find, ParseU16;
    var bracketEnd := Find(segment, ']');
    if segment != [] && segment[0] == '[' && bracketEnd.Some? {
      assert |segment[..bracketEnd.value + 1]| == bracketEnd.value + 1;
      if bracketEnd.value < |segment| - 1 {
        assert segment[..|segment| - 1][bracketEnd.value] == ']';
      }
    } else {
      var colon := Find(segment, ':');
      if colon.Some? {
        assert |segment[..colon.value]| == colon.value;
        assert LedByColon(segment) ==> colon.value == 0 by {
          assert colon.value > 0 ==> segment[0] in segment[..colon.value];
        }
      }
    }
  }

  /** So an IPv6 address without brackets that does not begin with a colon is cut at its first one. */
  lemma BareIpv6IsCut(group: string, rest: string)
    requires group != [] && group[0] != '[' && ':' !in group
    ensures ParseHostPort(group + ":" + rest).host == group
    ensures ParseHostPort("fe80::1") == HostPort("fe80", None)
  {
    hide Find, Value;
    NamedFinds(group, rest);
    assert (group + ":" + rest)[..|group|] == group;
    NamedFinds("fe80", ":1");
    var address := "fe80" + ":" + ":1";
    assert address == "fe80::1";
    assert address[..4] == "fe80" && address[5..] == ":1";
    assert !IsDigit(":1"[0]);
  }

  /** Exactly when a segment has a port: it is its host, a colon and what parses as that port, and does
      not begin with a colon. */
  lemma PortIff(segment: string, port: nat)
    ensures var hp := ParseHostPort(segment);
            hp.port == Some(port) <==>
            && !LedByColon(segment)
            && |hp.host| < |segment| && segment[..|hp.host|] == hp.host && segment[|hp.host|] == ':'
            && ParseU16(segment[|hp.host| + 1..]) == Some(port)
  {
    hide Find, ParseU16;
    var bracketEnd := Find(segment, ']');
    if segment != [] && segment[0] == '[' && bracketEnd.Some? {
      var rest := segment[bracketEnd.value + 1..];
      assert |segment[..bracketEnd.value + 1]| == bracketEnd.value + 1;
      assert rest != [] ==> rest[0] == segment[bracketEnd.value + 1] && rest[1..] == segment[bracketEnd.value + 2..];
    } else if LedByColon(segment) {
      LedByColonLosesItsPort(segment, 0);
    } else {
      var colon := Find(segment, ':');
      if colon.Some? {
        assert |segment[..colon.value]| == colon.value;
      }
    }
  }

  lemma {:induction false} WithPortsEmptyIff(servers: seq<string>)
    ensures WithPorts(servers) == [] <==> forall i :: 0 <= i < |servers| ==> ParseHostPort(servers[i]).port.None?
  {
    hide ParseHostPort;
    if servers != [] {
      WithPortsEmptyIff(servers[1..]);
      assert forall i :: 0 <= i < |servers| - 1 ==> servers[1..][i] == servers[i + 1];
    }
  }

  /** How the two parsers fail: on an address without segments, on an empty list, and on a list in
      which no entry has a port. */
  lemma FailuresAre(serverAddr: string, servers: seq<string>, defaultPort: nat)
    ensures ParseServerList(serverAddr, defaultPort) == Failure(EmptyAddress) <==> Segments(serverAddr) == []
    ensures ParseServerList(serverAddr, defaultPort).Failure? ==>
              ParseServerList(serverAddr, defaultPort) == Failure(EmptyAddress)
    ensures ParseHostPortVec(servers) == Failure(EmptyList) <==> servers == []
    ensures ParseHostPortVec(servers) == Failure(AllIllegal) <==>
            servers != [] && forall i :: 0 <= i < |servers| ==> ParseHostPort(servers[i]).port.None?
    ensures ParseHostPortVec(servers) != Failure(EmptyAddress)
  {
    WithPortsEmptyIff(servers);
  }

  lemma PrintedSegmentParsesBack(segment: string, defaultPort: nat)
    requires segment != [] && defaultPort <= 65535
    ensures var hp := ParseHostPort(Printed(segment, defaultPort));
            if LedByColon(segment) then hp.port.None?
            else hp == HostPort(EndpointOf(segment, defaultPort).host, Some(EndpointOf(segment, defaultPort).port))
  {
    if LedByColon(segment) {
      LedByColonLosesItsPort(segment, defaultPort);
      LedByColonLosesItsPort(Printed(segment, defaultPort), defaultPort);
    } else {
      ParsedHostIsHost(segment);
      var e := EndpointOf(segment, defaultPort);
      PrintedHostParsesBack(e.host, e.port);
    }
  }

  lemma {:induction false} PrintedListParsesBack(segments: seq<string>, defaultPort: nat)
    requires defaultPort <= 65535
    requires forall i :: 0 <= i < |segments| ==> segments[i] != []
    ensures WithPorts(PrintAll(segments, defaultPort)) == EndpointsOf(segments, defaultPort)
    ensures |PrintAll(segments, defaultPort)| == |segments|
  {
    if segments != [] {
      var printed := PrintAll(segments, defaultPort);
      assert printed[0] == Printed(segments[0], defaultPort);
      assert printed[1..] == PrintAll(segments[1..], defaultPort);
      PrintedSegmentParsesBack(segments[0], defaultPort);
      PrintedListParsesBack(segments[1..], defaultPort);
    }
  }

  lemma {:induction false} SegmentsNonEmpty(parts: seq<string>)
    ensures forall i :: 0 <= i < |NonEmptyTrimmed(parts)| ==> NonEmptyTrimmed(parts)[i] != []
  {
    if parts != [] {
      SegmentsNonEmpty(parts[1..]);
    }
  }

  lemma {:induction false} NoEndpointsIff(segments: seq<string>, defaultPort: nat)
    ensures EndpointsOf(segments, defaultPort) == [] <==>
            forall i :: 0 <= i < |segments| ==> LedByColon(segments[i])
  {
    if segments != [] {
      NoEndpointsIff(segments[1..], defaultPort);
      assert forall i :: 0 <= i < |segments| - 1 ==> segments[1..][i] == segments[i + 1];
    }
  }

  /** Parsing an address string and then its printed list, for every input string: the endpoints
      are, in order, exactly those of the non-empty segments that do not begin with a colon, and
      one of the two parsers fails exactly when there is no such segment. */
  lemma ParseThenParseBack(serverAddr: string, defaultPort: nat)
    requires defaultPort <= 65535
    ensures var segments := Segments(serverAddr);
            var listed := ParseServerList(serverAddr, defaultPort);
            && (listed.Failure? <==> segments == [])
            && (listed.Success? ==>
                  && |listed.value| == |segments|
                  && (var parsed := ParseHostPortVec(listed.value);
                      && (parsed.Success? ==> parsed.value == EndpointsOf(segments, defaultPort))
                      && (parsed.Failure? <==> forall i :: 0 <= i < |segments| ==> LedByColon(segments[i]))))
  {
    var segments := Segments(serverAddr);
    SegmentsNonEmpty(Split(Trim(serverAddr)));
    PrintedListParsesBack(segments, defaultPort);
    NoEndpointsIff(segments, defaultPort);
  }

  // ---------------------------------------------------------------- what the segments are

  /** The 25 characters with the Unicode property, one by one. */
  lemma WhitespaceIs(c: char)
    ensures IsWhitespace(c) <==>
            c as int in {0x09, 0x0a, 0x0b, 0x0c, 0x0d, 0x20, 0x85, 0xa0, 0x1680, 0x2000, 0x2001, 0x2002, 0x2003,
                         0x2004, 0x2005, 0x2006, 0x2007, 0x2008, 0x2009, 0x200a, 0x2028, 0x2029, 0x202f, 0x205f, 0x3000}
  {
  }

  predicate AllWhitespace(s: string) {
    forall i :: 0 <= i < |s| ==> IsWhitespace(s[i])
  }

  lemma AllWhitespaceAppend(a: string, b: string)
    ensures AllWhitespace(a + b) <==> AllWhitespace(a) && AllWhitespace(b)
  {
    hide IsWhitespace;
    var s := a + b;
    assert forall i :: 0 <= i < |a| ==> a[i] == s[i];
    assert forall i :: 0 <= i < |b| ==> b[i] == s[|a| + i];
    if AllWhitespace(a) && AllWhitespace(b) {
      forall i | 0 <= i < |s| ensures IsWhitespace(s[i]) {
        assert s[i] == if i < |a| then a[i] else b[i - |a|];
      }
    }
  }

  lemma OneWhitespace(c: char)
    ensures AllWhitespace([c]) <==> IsWhitespace(c)
  {
    hide IsWhitespace;
    assert [c][0] == c;
  }

  lemma {:induction false} TrimStartIs(s: string) returns (left: string)
    ensures AllWhitespace(left) && s == left + TrimStart(s)
    ensures TrimStart(s) != [] ==> !IsWhitespace(TrimStart(s)[0])
  {
    hide IsWhitespace;
    if s != [] && IsWhitespace(s[0]) {
      left := TrimStartIs(s[1..]);
      OneWhitespace(s[0]);
      AllWhitespaceAppend([s[0]], left);
      assert s == [s[0]] + s[1..];
      Associates([s[0]], left, TrimStart(s));
      left := [s[0]] + left;
    } else {
      left := [];
      assert [] + s == s;
    }
  }

  lemma {:induction false} TrimEndIs(s: string) returns (right: string)
    ensures AllWhitespace(right) && s == TrimEnd(s) + right
    ensures TrimEnd(s) != [] ==> !IsWhitespace(TrimEnd(s)[|TrimEnd(s)| - 1])
  {
    hide IsWhitespace;
    if s != [] && IsWhitespace(s[|s| - 1]) {
      var front, last := s[..|s| - 1], s[|s| - 1];
      right := TrimEndIs(front);
      OneWhitespace(last);
      AllWhitespaceAppend(right, [last]);
      assert s == front + [last];
      Associates(TrimEnd(s), right, [last]);
      right := right + [last];
    } else {
      right := [];
      assert s + [] == s;
    }
  }

  /** Trimming takes whitespace off both ends, all of it and nothing else. */
  lemma TrimIs(s: string) returns (left: string, right: string)
    ensures AllWhitespace(left) && AllWhitespace(right) && s == left + Trim(s) + right
    ensures Trim(s) == [] || Tight(Trim(s))
    ensures Trim(s) == [] <==> AllWhitespace(s)
  {
    hide TrimStart, TrimEnd, IsWhitespace, AllWhitespace;
    left := TrimStartIs(s);
    right := TrimEndIs(TrimStart(s));
    var kept := Trim(s);
    Associates(left, kept, right);
    AllWhitespaceAppend(left + kept, right);
    AllWhitespaceAppend(left, kept);
    if kept != [] {
      assert TrimStart(s)[0] == kept[0];
      TightIsNotBlank(kept);
    } else {
      NothingBlank();
    }
  }

  lemma TightIsNotBlank(s: string)
    requires Tight(s)
    ensures !AllWhitespace(s)
  {
  }

  lemma NothingBlank()
    ensures AllWhitespace([])
  {
  }

  lemma SplitHead(c: char, s: string)
    ensures Split([c] + s) ==
            if IsSeparator(c) then [[]] + Split(s) else [[c] + Split(s)[0]] + Split(s)[1..]
  {
    assert ([c] + s)[1..] == s;
  }

  lemma HeadAppend(head: string, rest: seq<string>, more: seq<string>)
    requires rest != []
    ensures [head + (rest + more)[0]] + (rest + more)[1..] == ([head + rest[0]] + rest[1..]) + more
  {
  }

  /** A separator is a comma, a semicolon or a newline, wherever it stands: what is before it and what
      is after it are split apart. */
  lemma {:induction false} SplitAtSeparator(a: string, c: char, b: string)
    requires c == ',' || c == ';' || c == '\n'
    ensures Split(a + [c] + b) == Split(a) + Split(b)
  {
    if a == [] {
      SplitHead(c, b);
      assert [] + [c] + b == [c] + b;
    } else {
      var head, tail := a[0], a[1..];
      SplitAtSeparator(tail, c, b);
      assert a == [head] + tail;
      assert a + [c] + b == [head] + (tail + [c] + b);
      hide Split;
      SplitHead(head, tail);
      SplitHead(head, tail + [c] + b);
      if IsSeparator(head) {
        Associates([[]], Split(tail), Split(b));
      } else {
        HeadAppend([head], Split(tail), Split(b));
      }
    }
  }

  /** Any other text stays whole. */
  lemma {:induction false} SplitWhole(a: string)
    requires ',' !in a && ';' !in a && '\n' !in a
    ensures Split(a) == [a]
  {
    if a != [] {
      assert a[0] in a;
      SplitWhole(a[1..]);
      assert [a[0]] + a[1..] == a;
    }
  }

  lemma SegmentsHead(part: string, rest: seq<string>)
    ensures NonEmptyTrimmed([part] + rest) == (if Trim(part) == [] then [] else [Trim(part)]) + NonEmptyTrimmed(rest)
  {
    hide Trim;
    assert ([part] + rest)[1..] == rest;
  }

  lemma {:induction false} SegmentsAppend(a: seq<string>, b: seq<string>)
    ensures NonEmptyTrimmed(a + b) == NonEmptyTrimmed(a) + NonEmptyTrimmed(b)
  {
    if a == [] {
      assert a + b == b;
      assert NonEmptyTrimmed(a) == [];
    } else {
      hide Trim, NonEmptyTrimmed;
      var head, tail := a[0], a[1..];
      SegmentsAppend(tail, b);
      assert a == [head] + tail;
      Associates([head], tail, b);
      SegmentsHead(head, tail);
      SegmentsHead(head, tail + b);
      var kept := if Trim(head) == [] then [] else [Trim(head)];
      Associates(kept, NonEmptyTrimmed(tail), NonEmptyTrimmed(b));
    }
  }

  lemma {:induction false} TrimStartEnd(s: string, w: char)
    requires IsWhitespace(w)
    ensures TrimStart(s + [w]) == if TrimStart(s) == [] then [] else TrimStart(s) + [w]
  {
    hide IsWhitespace;
    if s == [] {
      assert [] + [w] == [w] && [w][1..] == [];
    } else if IsWhitespace(s[0]) {
      TrimStartEnd(s[1..], w);
      assert (s + [w])[1..] == s[1..] + [w];
    }
  }

  /** Whitespace at either end of a part does not matter for its segment. */
  lemma TrimAround(s: string, w: char)
    requires IsWhitespace(w)
    ensures Trim([w] + s) == Trim(s) && Trim(s + [w]) == Trim(s)
  {
    hide IsWhitespace;
    assert ([w] + s)[1..] == s;
    TrimStartEnd(s, w);
    var t := TrimStart(s);
    assert (t + [w])[..|t|] == t;
  }

  lemma SegmentsAfterWhitespace(s: string, w: char)
    requires IsWhitespace(w)
    ensures NonEmptyTrimmed(Split([w] + s)) == NonEmptyTrimmed(Split(s))
  {
    hide Split, Trim, NonEmptyTrimmed;
    var parts := Split(s);
    SplitHead(w, s);
    if IsSeparator(w) {
      SegmentsHead([], parts);
      NothingTrimmed();
    } else {
      TrimAround(parts[0], w);
      SegmentsHead([w] + parts[0], parts[1..]);
      SegmentsHead(parts[0], parts[1..]);
      assert parts == [parts[0]] + parts[1..];
    }
  }

  lemma NothingTrimmed()
    ensures Trim([]) == [] && Split([]) == [[]] && NonEmptyTrimmed([]) == [] && NonEmptyTrimmed([[]]) == []
  {
  }

  lemma {:induction false} SplitEnd(s: string, w: char)
    requires !IsSeparator(w)
    ensures var parts := Split(s);
            var last := |parts| - 1;
            Split(s + [w]) == parts[..last] + [parts[last] + [w]]
  {
    if s == [] {
      SplitHead(w, s);
      assert s + [w] == [w] + s;
      assert Split(s)[0] + [w] == [w] && [w] + Split(s)[0] == [w];
    } else {
      var head, tail := s[0], s[1..];
      SplitEnd(tail, w);
      assert s == [head] + tail && s + [w] == [head] + (tail + [w]);
      hide Split;
      SplitHead(head, tail);
      SplitHead(head, tail + [w]);
      var front, last := Split(tail)[..|Split(tail)| - 1], Split(tail)[|Split(tail)| - 1];
      assert Split(tail) == front + [last];
      if IsSeparator(head) {
        Associates([[]], front, [last]);
        Associates([[]], front, [last + [w]]);
      } else if front == [] {
        Associates([head], last, [w]);
      } else {
        HeadAppend([head], front, [last]);
        HeadAppend([head], front, [last + [w]]);
      }
    }
  }

  lemma SegmentsBeforeWhitespace(s: string, w: char)
    requires IsWhitespace(w)
    ensures NonEmptyTrimmed(Split(s + [w])) == NonEmptyTrimmed(Split(s))
  {
    NothingTrimmed();
    hide Split, Trim, NonEmptyTrimmed;
    var parts := Split(s);
    if IsSeparator(w) {
      SplitAtSeparator(s, w, []);
      assert s + [w] + [] == s + [w];
      SegmentsAppend(parts, [[]]);
    } else {
      var front, last := parts[..|parts| - 1], parts[|parts| - 1];
      SplitEnd(s, w);
      TrimAround(last, w);
      SegmentsAppend(front, [last]);
      SegmentsAppend(front, [last + [w]]);
      SegmentsHead(last, []);
      SegmentsHead(last + [w], []);
      assert parts == front + [last];
      assert [last] + [] == [last] && [last + [w]] + [] == [last + [w]];
    }
  }

  lemma {:induction false} SegmentsAmidWhitespace(left: string, s: string, right: string)
    requires AllWhitespace(left) && AllWhitespace(right)
    ensures NonEmptyTrimmed(Split(left + s + right)) == NonEmptyTrimmed(Split(s))
    decreases |left| + |right|
  {
    hide Split, NonEmptyTrimmed, IsWhitespace;
    if left != [] {
      assert IsWhitespace(left[0]) && AllWhitespace(left[1..]);
      SegmentsAmidWhitespace(left[1..], s, right);
      SegmentsAfterWhitespace(left[1..] + s + right, left[0]);
      assert left + s + right == [left[0]] + (left[1..] + s + right);
    } else if right != [] {
      var n := |right| - 1;
      assert IsWhitespace(right[n]) && AllWhitespace(right[..n]);
      SegmentsAmidWhitespace(left, s, right[..n]);
      SegmentsBeforeWhitespace(left + s + right[..n], right[n]);
      assert left + s + right == (left + s + right[..n]) + [right[n]];
    } else {
      assert left + s + right == s;
    }
  }

  /** What the segments of an address string are, for every string: a separator splits it into what is
      before and what is after, and a text without a separator is one segment, trimmed of whitespace,
      or none if nothing else is in it. */
  lemma SegmentsAre(a: string, c: char, b: string)
    requires c == ',' || c == ';' || c == '\n'
    ensures Segments(a + [c] + b) == Segments(a) + Segments(b)
    ensures ',' !in a && ';' !in a && '\n' !in a ==> Segments(a) == if AllWhitespace(a) then [] else [Trim(a)]
  {
    SegmentsUntrimmed(a);
    SegmentsUntrimmed(b);
    SegmentsUntrimmed(a + [c] + b);
    SplitAtSeparator(a, c, b);
    NothingTrimmed();
    hide Split, Trim, NonEmptyTrimmed, Segments;
    SegmentsAppend(Split(a), Split(b));
    if ',' !in a && ';' !in a && '\n' !in a {
      SplitWhole(a);
      var _, _ := TrimIs(a);
      SegmentsHead(a, []);
      assert [a] + [] == [a];
    }
  }

  lemma SegmentsUntrimmed(s: string)
    ensures Segments(s) == NonEmptyTrimmed(Split(s))
  {
    hide Split, Trim, NonEmptyTrimmed;
    var left, right := TrimIs(s);
    SegmentsAmidWhitespace(left, Trim(s), right);
  }

  // ---------------------------------------------------------------- printing is stable

  function Join(parts: seq<string>): string
    requires parts != []
  {
    if |parts| == 1 then parts[0] else parts[0] + "," + Join(parts[1..])
  }

  predicate NoSeparator(s: string) {
    forall i :: 0 <= i < |s| ==> !IsSeparator(s[i])
  }

  /** Non-empty, with nothing to trim at either end. */
  predicate Tight(s: string) {
    s != [] && !IsWhitespace(s[0]) && !IsWhitespace(s[|s| - 1])
  }

  predicate Clean(s: string) {
    NoSeparator(s) && Tight(s)
  }

  predicate AllClean(parts: seq<string>) {
    forall i :: 0 <= i < |parts| ==> Clean(parts[i])
  }

  lemma {:induction false} SplitAtFirst(part: string, rest: string)
    requires NoSeparator(part)
    ensures Split(part) == [part]
    ensures Split(part + "," + rest) == [part] + Split(rest)
  {
    var s := part + "," + rest;
    if part == [] {
      assert s[1..] == rest;
    } else {
      SplitAtFirst(part[1..], rest);
      assert s[1..] == part[1..] + "," + rest;
      assert [part[0]] + part[1..] == part;
    }
  }

  lemma {:induction false} SplitJoined(parts: seq<string>)
    requires parts != [] && AllClean(parts)
    ensures Split(Join(parts)) == parts
    ensures Tight(Join(parts))
  {
    assert Clean(parts[0]);
    if |parts| == 1 {
      SplitAtFirst(parts[0], "");
    } else {
      assert AllClean(parts[1..]);
      SplitJoined(parts[1..]);
      SplitAtFirst(parts[0], Join(parts[1..]));
    }
  }

  lemma TrimTight(s: string)
    requires Tight(s)
    ensures Trim(s) == s
  {
  }

  lemma {:induction false} CleanPartsStay(parts: seq<string>)
    requires AllClean(parts)
    ensures NonEmptyTrimmed(parts) == parts
  {
    if parts != [] {
      assert Clean(parts[0]);
      TrimTight(parts[0]);
      CleanPartsStay(parts[1..]);
      assert [parts[0]] + parts[1..] == parts;
    }
  }

  lemma {:induction false} TrimStartTrims(s: string)
    ensures NoSeparator(s) ==> NoSeparator(TrimStart(s))
    ensures TrimStart(s) != [] ==> !IsWhitespace(TrimStart(s)[0])
  {
    if s != [] && IsWhitespace(s[0]) {
      TrimStartTrims(s[1..]);
    }
  }

  lemma {:induction false} TrimEndTrims(s: string)
    ensures NoSeparator(s) ==> NoSeparator(TrimEnd(s))
    ensures TrimEnd(s) != [] ==> !IsWhitespace(TrimEnd(s)[|TrimEnd(s)| - 1])
    ensures TrimEnd(s) <= s
  {
    if s != [] && IsWhitespace(s[|s| - 1]) {
      TrimEndTrims(s[..|s| - 1]);
    }
  }

  lemma {:induction false} PartsHaveNoSeparator(s: string)
    ensures forall i :: 0 <= i < |Split(s)| ==> NoSeparator(Split(s)[i])
  {
    if s != [] {
      PartsHaveNoSeparator(s[1..]);
      var rest := Split(s[1..]);
      assert NoSeparator(rest[0]);
      assert forall i :: 1 <= i < |rest| ==> rest[1..][i - 1] == rest[i];
    }
  }

  lemma {:induction false} TrimmedPartsAreClean(parts: seq<string>)
    requires forall i :: 0 <= i < |parts| ==> NoSeparator(parts[i])
    ensures AllClean(NonEmptyTrimmed(parts))
  {
    if parts != [] {
      TrimStartTrims(parts[0]);
      TrimEndTrims(TrimStart(parts[0]));
      TrimmedPartsAreClean(parts[1..]);
    }
  }

  lemma AppendedPortIsClean(segment: string, host: string, digits: string)
    requires Clean(segment) && host != [] && host <= segment
    requires digits != [] && AllDigits(digits)
    ensures Clean(host + ":" + digits)
  {
    var s := host + ":" + digits;
    forall i | 0 <= i < |s| ensures !IsSeparator(s[i]) {
      if i < |host| {
        assert s[i] == segment[i];
      } else if i > |host| {
        assert IsDigit(digits[i - |host| - 1]);
      }
    }
    assert IsDigit(digits[|digits| - 1]);
    assert s[0] == segment[0];
  }

  lemma HostIsPrefix(segment: string)
    requires segment != []
    ensures ParseHostPort(segment).host != [] && ParseHostPort(segment).host <= segment
  {
    hide Find, ParseU16;
  }

  lemma PrintedIsClean(segment: string, defaultPort: nat)
    requires Clean(segment)
    ensures Clean(Printed(segment, defaultPort))
  {
    hide ParseHostPort, PrintNat, Clean;
    assert segment != [] by {
      TightNonEmpty(segment);
    }
    HostIsPrefix(segment);
    var hp := ParseHostPort(segment);
    var port := if hp.port.Some? then hp.port.value else defaultPort;
    PrintedValue(port);
    AppendedPortIsClean(segment, hp.host, PrintNat(port));
  }

  lemma TightNonEmpty(s: string)
    requires Clean(s)
    ensures s != []
  {
  }

  /** Printing a segment's printed form changes nothing, unless the segment begins with a colon. */
  lemma PrintedTwice(segment: string, defaultPort: nat)
    requires segment != [] && defaultPort <= 65535
    ensures Printed(Printed(segment, defaultPort), defaultPort) == Printed(segment, defaultPort)
            <==> !LedByColon(segment)
  {
    PrintedSegmentParsesBack(segment, defaultPort);
    if LedByColon(segment) {
      LedByColonLosesItsPort(segment, defaultPort);
      LedByColonLosesItsPort(Printed(segment, defaultPort), defaultPort);
    }
  }

  lemma PrintAllHead(segments: seq<string>, defaultPort: nat)
    requires segments != []
    ensures PrintAll(segments, defaultPort) ==
            [Printed(segments[0], defaultPort)] + PrintAll(segments[1..], defaultPort)
  {
  }

  lemma SameHeads(a: string, b: string, c: seq<string>, d: seq<string>)
    ensures [a] + c == [b] + d <==> a == b && c == d
  {
    var first, second := [a] + c, [b] + d;
    assert first[0] == a && first[1..] == c && second[0] == b && second[1..] == d;
  }

  lemma AllCleanHead(part: string, parts: seq<string>)
    ensures AllClean([part] + parts) <==> Clean(part) && AllClean(parts)
  {
    hide Clean;
    var all := [part] + parts;
    assert all[0] == part;
    assert forall i :: 0 <= i < |parts| ==> parts[i] == all[i + 1];
  }

  lemma {:induction false} PrintedListTwice(segments: seq<string>, defaultPort: nat)
    requires AllClean(segments) && defaultPort <= 65535
    ensures AllClean(PrintAll(segments, defaultPort))
    ensures PrintAll(PrintAll(segments, defaultPort), defaultPort) == PrintAll(segments, defaultPort)
            <==> forall i :: 0 <= i < |segments| ==> !LedByColon(segments[i])
  {
    if segments != [] {
      hide PrintAll, Printed, LedByColon, Clean, AllClean;
      var head, tail := segments[0], segments[1..];
      assert segments == [head] + tail;
      AllCleanHead(head, tail);
      TightNonEmpty(head);
      PrintedListTwice(tail, defaultPort);
      PrintedIsClean(head, defaultPort);
      PrintedTwice(head, defaultPort);
      var once, rest := Printed(head, defaultPort), PrintAll(tail, defaultPort);
      PrintAllHead(segments, defaultPort);
      PrintAllHead([once] + rest, defaultPort);
      AllCleanHead(once, rest);
      SameHeads(Printed(once, defaultPort), once, PrintAll(rest, defaultPort), rest);
      assert forall i :: 0 <= i < |tail| ==> tail[i] == segments[i + 1];
    }
  }

  /** A printed list, joined again, parses to itself exactly when no segment began with a colon. */
  lemma PrintedListIsStable(serverAddr: string, defaultPort: nat)
    requires defaultPort <= 65535
    requires ParseServerList(serverAddr, defaultPort).Success?
    ensures var segments := Segments(serverAddr);
            var listed := ParseServerList(serverAddr, defaultPort).value;
            ParseServerList(Join(listed), defaultPort) == Success(listed)
            <==> forall i :: 0 <= i < |segments| ==> !LedByColon(segments[i])
  {
    var segments := Segments(serverAddr);
    var listed := ParseServerList(serverAddr, defaultPort).value;
    PartsHaveNoSeparator(Trim(serverAddr));
    TrimmedPartsAreClean(Split(Trim(serverAddr)));
    PrintedListTwice(segments, defaultPort);
    SplitJoined(listed);
    TrimTight(Join(listed));
    CleanPartsStay(listed);
  }
}
