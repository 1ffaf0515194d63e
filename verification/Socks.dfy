/** The SOCKS5 bridge of the worker: it parses a client's request (sections 3 and 4 of RFC 1928)
    and prints it again for the upstream proxy. */
module Socks {
  import opened Options
  import opened Decimal
  import opened Utf8

  // ----- dotted decimal

  function Dotted(bs: Bytes): string
    decreases |bs|
  {
    if bs == [] then "" else if |bs| == 1 then Show(bs[0]) else Show(bs[0]) + "." + Dotted(bs[1..])
  }

  /** The text before the first dot. */
  function Field(s: string): (r: string)
    ensures r <= s && '.' !in r && (|r| < |s| ==> s[|r|] == '.')
    decreases |s|
  {
    if s == "" || s[0] == '.' then "" else [s[0]] + Field(s[1..])
  }

  /** `bytes(int(x) for x in text.split("."))`; None when it raises ValueError. */
  function Undotted(s: string): Option<Bytes>
    decreases |s|
  {
    var f := Field(s);
    var n := Parse(f);
    if n.None? || n.value > 255 then None
    else if |f| == |s| then Some([n.value])
    else
      var rest := Undotted(s[|f| + 1..]);
      if rest.None? then None else Some([n.value] + rest.value)
  }

  lemma {:induction false} FieldOf(a: string, rest: string)
    requires '.' !in a
    ensures Field(a + "." + rest) == a && Field(a) == a
    decreases |a|
  {
    if a != "" {
      FieldOf(a[1..], rest);
      assert (a + "." + rest)[1..] == a[1..] + "." + rest;
    }
  }

  lemma UndottedFirst(b: Byte, rest: string)
    requires Undotted(rest).Some?
    ensures Undotted(Show(b) + "." + rest) == Some([b] + Undotted(rest).value)
  {
    var a := Show(b);
    ParseShow(b);
    FieldOf(a, rest);
    assert (a + "." + rest)[|a| + 1..] == rest;
  }

  lemma UndottedLast(b: Byte)
    ensures Undotted(Show(b)) == Some([b])
  {
    ParseShow(b);
    FieldOf(Show(b), "");
  }

  lemma {:induction false} UndottedDotted(bs: Bytes)
    requires bs != []
    ensures Undotted(Dotted(bs)) == Some(bs)
    decreases |bs|
  {
    if |bs| == 1 {
      UndottedLast(bs[0]);
      assert bs == [bs[0]];
    } else {
      UndottedDotted(bs[1..]);
      UndottedFirst(bs[0], Dotted(bs[1..]));
      assert [bs[0]] + bs[1..] == bs;
    }
  }

  /** An IPv4 address is written as its four numbers with a dot between each two. */
  lemma DottedSpelled(a: Byte, b: Byte, c: Byte, d: Byte)
    ensures Dotted([a, b, c, d]) == Show(a) + "." + (Show(b) + "." + (Show(c) + "." + Show(d)))
  {
    assert [a, b, c, d][1..] == [b, c, d] && [b, c, d][1..] == [c, d] && [c, d][1..] == [d];
    assert Dotted([d]) == Show(d);
    assert Dotted([c, d]) == Show(c) + "." + Show(d);
    assert Dotted([b, c, d]) == Show(b) + "." + (Show(c) + "." + Show(d));
  }

  // ----- the request, in and out

  /** The target of a CONNECT as the bridge keeps it: the address type, a text, a port. */
  datatype Target =
    | V4(text: string, port: nat)
    | Domain(runes: seq<Rune>, port: nat)
    | V6(runes: seq<Rune>, port: nat)

  datatype Parsed =
    | Got(target: Target, next: nat)
    | Unsupported(next: nat)   // unknown address type
    | Fails(next: nat)         // a short read or bad UTF-8 raises

  function Upto(input: Bytes, pos: nat, n: nat): (end: nat)
    requires pos <= |input|
    ensures pos <= end <= |input| && end <= pos + n
    ensures pos + n <= |input| ==> end == pos + n
  {
    if pos + n <= |input| then pos + n else |input|
  }

  function PortOf(b: Bytes): nat
    requires |b| == 2
  {
    b[0] as int * 256 + b[1]
  }

  function PortBytes(p: nat): Bytes
    requires p < 0x10000
  {
    [p / 256, p % 256]
  }

  /** Reads the port that follows an address. */
  function WithPort(input: Bytes, pos: nat, t: Target): Parsed
    requires pos <= |input|
  {
    var end := Upto(input, pos, 2);
    if end - pos < 2 then Fails(end) else Got(t.(port := PortOf(input[pos..end])), end)
  }

  function AfterName(input: Bytes, pos: nat, name: Option<seq<Rune>>): Parsed
    requires pos <= |input|
  {
    if name.None? then Fails(pos) else WithPort(input, pos, Domain(name.value, 0))
  }

  /** Reads address and port; `ntop` is inet_ntop for IPv6. */
  function ReadTarget(input: Bytes, pos: nat, atyp: Byte, ntop: Bytes -> seq<Rune>): Parsed
    requires pos <= |input|
  {
    if atyp == 1 then
      var end := Upto(input, pos, 4);
      WithPort(input, end, V4(Dotted(input[pos..end]), 0))
    else if atyp == 3 then
      var end := Upto(input, pos, 1);
      if end == pos then Fails(end)
      else
        var stop := Upto(input, end, input[pos]);
        AfterName(input, stop, Decode(input[end..stop]))
    else if atyp == 4 then
      var end := Upto(input, pos, 16);
      if end - pos < 16 then Fails(end) else WithPort(input, end, V6(ntop(input[pos..end]), 0))
    else Unsupported(pos)
  }

  /** Version, CONNECT, reserved byte, address type. */
  function Head4(ver: Byte, rsv: Byte, atyp: Byte): Bytes {
    [ver, 1, rsv, atyp]
  }

  /** The CONNECT sent upstream; None when building it raises. An IPv6 address goes as a domain. */
  function PrintTarget(t: Target): Option<Bytes> {
    if t.port >= 0x10000 then None
    else if t.V4? then
      var b := Undotted(t.text);
      if b.None? then None else Some(Head4(5, 0, 1) + (b.value + PortBytes(t.port)))
    else if |t.runes| > 255 then None
    else Some(Head4(5, 0, 3) + ([|t.runes|] + Encode(t.runes) + PortBytes(t.port)))
  }

  // ----- a whole client connection, up to the relay

  datatype End = Closed | Raised | Relaying

  /** What a connection did: the bytes it consumed, the bytes it sent back, the messages it sent
      upstream, and how it ended. */
  datatype Trace = Trace(consumed: nat, toClient: Bytes, toProxy: seq<Bytes>, end: End)

  /** The upstream proxy: whether it can be reached and its two replies, None being a timeout. */
  datatype Proxy = Proxy(reachable: bool, greeting: Option<Bytes>, answer: Option<Bytes>)

  const NO_AUTH: Bytes := [5, 0]
  const GREETING: Bytes := [5, 1, 0]

  function Reply(code: Byte): Bytes {
    [5, code, 0, 1, 0, 0, 0, 0, 0, 0]
  }

  predicate Accepts(reply: Bytes) {
    |reply| >= 2 && reply[1] == 0
  }

  /** The upstream half, once the request has been read. */
  function Dial(t: Target, proxy: Proxy, pos: nat): Trace {
    if !proxy.reachable then Trace(pos, NO_AUTH + Reply(4), [], Closed)
    else if proxy.greeting.None? then Trace(pos, NO_AUTH, [GREETING], Raised)
    else if !Accepts(proxy.greeting.value) then Trace(pos, NO_AUTH + Reply(4), [GREETING], Closed)
    else
      var connect := PrintTarget(t);
      if connect.None? then Trace(pos, NO_AUTH, [GREETING], Raised)
      else if proxy.answer.None? then Trace(pos, NO_AUTH, [GREETING, connect.value], Raised)
      else if !Accepts(proxy.answer.value) then Trace(pos, NO_AUTH + Reply(4), [GREETING, connect.value], Closed)
      else Trace(pos, NO_AUTH + Reply(0), [GREETING, connect.value], Relaying)
  }

  /** What follows once the request has been read. */
  function Served(p: Parsed, proxy: Proxy): Trace {
    match p
    case Unsupported(next) => Trace(next, NO_AUTH, [], Closed)
    case Fails(next) => Trace(next, NO_AUTH, [], Raised)
    case Got(t, next) => Dial(t, proxy, next)
  }

  function Serve(input: Bytes, pos: nat, proxy: Proxy, ntop: Bytes -> seq<Rune>): Trace
    requires pos <= |input|
  {
    var end := Upto(input, pos, 4);
    if end - pos < 4 || input[pos + 1] != 1 then Trace(end, NO_AUTH + Reply(7), [], Closed)
    else Served(ReadTarget(input, end, input[pos + 3], ntop), proxy)
  }

  /** A whole connection. `arrived` bytes of the stream are there when the greeting is read; that
      read does not wait for more. */
  function Bridge(input: Bytes, arrived: nat, proxy: Proxy, ntop: Bytes -> seq<Rune>): Trace {
    var end := Upto(input, 0, FirstRead(arrived));
    if end < 2 || input[0] != 5 then Trace(end, [], [], Closed)
    else Serve(input, if input[1] > 0 then Upto(input, end, input[1] as int - (end - 2)) else end, proxy, ntop)
  }

  function FirstRead(arrived: nat): nat {
    if arrived < 3 then arrived else 3
  }

  /** One client connection: a stream read in order, and what has been written so far. */
  class Connection {
    const input: Bytes
    const arrived: nat
    var pos: nat
    var toClient: Bytes
    var toProxy: seq<Bytes>

    constructor (input: Bytes, arrived: nat)
      ensures this.input == input && this.arrived == arrived && pos == 0 && toClient == [] && toProxy == []
    {
      this.input, this.arrived, pos, toClient, toProxy := input, arrived, 0, [], [];
    }

    method Read(n: nat) returns (b: Bytes)
      requires pos <= |input|
      modifies this`pos
      ensures pos == Upto(input, old(pos), n) && b == input[old(pos)..pos]
    {
      var end := Upto(input, pos, n);
      b := input[pos..end];
      pos := end;
    }

    /** The address and port of the request. */
    method ReadRequest(atyp: Byte, ntop: Bytes -> seq<Rune>) returns (p: Parsed)
      requires pos <= |input|
      modifies this`pos
      ensures p == ReadTarget(input, old(pos), atyp, ntop) && pos == p.next
    {
      var target: Target;
      if atyp == 1 {
        var addr := Read(4);
        target := V4(Dotted(addr), 0);
      } else if atyp == 3 {
        var len := Read(1);
        if |len| == 0 {
          return Fails(pos);
        }
        var name := Read(len[0]);
        var runes := Decode(name);
        if runes.None? {
          return Fails(pos);
        }
        target := Domain(runes.value, 0);
      } else if atyp == 4 {
        var addr := Read(16);
        if |addr| < 16 {
          return Fails(pos);
        }
        target := V6(ntop(addr), 0);
      } else {
        return Unsupported(pos);
      }
      var port := Read(2);
      if |port| < 2 {
        return Fails(pos);
      }
      p := Got(target.(port := PortOf(port)), pos);
    }

    /** The request half of a connection. */
    method HandleRequest(proxy: Proxy, ntop: Bytes -> seq<Rune>) returns (end: End)
      requires pos <= |input| && toClient == NO_AUTH && toProxy == []
      modifies this
      ensures Trace(pos, toClient, toProxy, end) == Serve(input, old(pos), proxy, ntop)
    {
      var req := Read(4);
      if |req| < 4 || req[1] != 1 {
        toClient := toClient + Reply(7);
        return Closed;
      }
      var p := ReadRequest(req[3], ntop);
      if p.Unsupported? {
        return Closed;
      }
      if p.Fails? {
        return Raised;
      }
      end := Forward(p.target, proxy);
    }

    /** _handle_socks5_client, up to the relay */
    method Handle(proxy: Proxy, ntop: Bytes -> seq<Rune>) returns (end: End)
      requires pos == 0 && toClient == [] && toProxy == []
      modifies this
      ensures Trace(pos, toClient, toProxy, end) == Bridge(input, arrived, proxy, ntop)
    {
      var hdr := Read(FirstRead(arrived));
      if |hdr| < 2 || hdr[0] != 5 {
        return Closed;
      }
      if hdr[1] > 0 {
        var _ := Read(hdr[1] as int - (|hdr| - 2));
      }
      toClient := toClient + NO_AUTH;
      end := HandleRequest(proxy, ntop);
    }

    method Forward(target: Target, proxy: Proxy) returns (end: End)
      requires toClient == NO_AUTH && toProxy == []
      modifies this`toClient, this`toProxy
      ensures Trace(pos, toClient, toProxy, end) == Dial(target, proxy, pos)
    {
      if !proxy.reachable {
        toClient := toClient + Reply(4);
        return Closed;
      }
      toProxy := toProxy + [GREETING];
      if proxy.greeting.None? {
        return Raised;
      }
      if !Accepts(proxy.greeting.value) {
        toClient := toClient + Reply(4);
        return Closed;
      }
      var connect := PrintTarget(target);
      if connect.None? {
        return Raised;
      }
      toProxy := toProxy + [connect.value];
      if proxy.answer.None? {
        return Raised;
      }
      if !Accepts(proxy.answer.value) {
        toClient := toClient + Reply(4);
        return Closed;
      }
      toClient := toClient + Reply(0);
      return Relaying;
    }
  }

  // ----- what a client sends, by the standard

  datatype Dest =
    | Ip4(addr: Bytes)
    | Host(name: Bytes)
    | Ip6(addr: Bytes)
  {
    predicate Valid() {
      match this
      case Ip4(a) => |a| == 4
      case Host(n) => |n| <= 255
      case Ip6(a) => |a| == 16
    }

    function Atyp(): Byte {
      match this
      case Ip4(_) => 1
      case Host(_) => 3
      case Ip6(_) => 4
    }

    function Body(): Bytes
      requires Valid()
    {
      match this
      case Ip4(a) => a
      case Host(n) => [|n|] + n
      case Ip6(a) => a
    }
  }

  /** Section 3: version, number of methods, methods. */
  function ClientGreeting(methods: Bytes): Bytes
    requires |methods| <= 255
  {
    [5, |methods|] + methods
  }

  /** Section 4: version, CONNECT, reserved byte, address type, address, port. */
  function ClientConnect(ver: Byte, rsv: Byte, dest: Dest, port: Bytes): Bytes
    requires dest.Valid() && |port| == 2
  {
    Head4(ver, rsv, dest.Atyp()) + (dest.Body() + port)
  }

  ghost predicate Ready(proxy: Proxy) {
    && proxy.reachable
    && proxy.greeting.Some? && Accepts(proxy.greeting.value)
    && proxy.answer.Some? && Accepts(proxy.answer.value)
  }

  /** inet_ntop answers short ASCII texts. */
  ghost predicate ShortTexts(ntop: Bytes -> seq<Rune>) {
    forall a: Bytes :: |ntop(a)| <= 255
  }

  function TargetOf(dest: Dest, port: Bytes, ntop: Bytes -> seq<Rune>): Target
    requires dest.Valid() && |port| == 2 && (dest.Host? ==> Decode(dest.name).Some?)
  {
    match dest
    case Ip4(a) => V4(Dotted(a), PortOf(port))
    case Host(n) => Domain(Decode(n).value, PortOf(port))
    case Ip6(a) => V6(ntop(a), PortOf(port))
  }

  /** The bytes at a position of a stream. */
  predicate Holds(input: Bytes, pos: nat, b: Bytes) {
    pos + |b| <= |input| && input[pos..pos + |b|] == b
  }

  lemma HoldsParts(before: Bytes, body: Bytes, port: Bytes, rest: Bytes)
    ensures var input := before + body + port + rest;
            Holds(input, |before|, body) && Holds(input, |before| + |body|, port)
  {
  }

  lemma HoldsTail(input: Bytes, pos: nat, b: Byte, rest: Bytes)
    requires Holds(input, pos, [b] + rest)
    ensures input[pos] == b && Holds(input, pos + 1, rest)
  {
    var all := input[pos..pos + 1 + |rest|];
    assert all[0] == b && all[1..] == rest;
  }

  lemma ReadsPort(input: Bytes, pos: nat, port: Bytes, t: Target)
    requires Holds(input, pos, port) && |port| == 2
    ensures WithPort(input, pos, t) == Got(t.(port := PortOf(port)), pos + 2)
  {
  }

  lemma ReadsIp4(input: Bytes, pos: nat, a: Bytes, port: Bytes, ntop: Bytes -> seq<Rune>)
    requires |a| == 4 && Holds(input, pos, a) && Holds(input, pos + 4, port) && |port| == 2
    ensures ReadTarget(input, pos, 1, ntop) == Got(V4(Dotted(a), PortOf(port)), pos + 6)
  {
    ReadsPort(input, pos + 4, port, V4(Dotted(a), 0));
  }

  lemma ReadsIp6(input: Bytes, pos: nat, a: Bytes, port: Bytes, ntop: Bytes -> seq<Rune>)
    requires |a| == 16 && Holds(input, pos, a) && Holds(input, pos + 16, port) && |port| == 2
    ensures ReadTarget(input, pos, 4, ntop) == Got(V6(ntop(a), PortOf(port)), pos + 18)
  {
    ReadsPort(input, pos + 16, port, V6(ntop(a), 0));
  }

  lemma ReadsNameBytes(input: Bytes, pos: nat, n: Bytes, ntop: Bytes -> seq<Rune>)
    requires pos < |input| && input[pos] == |n| && Holds(input, pos + 1, n)
    ensures ReadTarget(input, pos, 3, ntop) == AfterName(input, pos + 1 + |n|, Decode(n))
  {
    var end := Upto(input, pos, 1);
    var stop := Upto(input, end, input[pos]);
    assert end == pos + 1 && stop == pos + 1 + |n|;
    assert input[end..stop] == n;
  }

  lemma PortAfterName(input: Bytes, pos: nat, name: Option<seq<Rune>>, port: Bytes)
    requires Holds(input, pos, port) && |port| == 2
    ensures AfterName(input, pos, name)
            == if name.None? then Fails(pos) else Got(Domain(name.value, PortOf(port)), pos + 2)
  {
    if name.Some? {
      ReadsPort(input, pos, port, Domain(name.value, 0));
    }
  }

  lemma ReadsName(input: Bytes, pos: nat, n: Bytes, port: Bytes, ntop: Bytes -> seq<Rune>)
    requires |n| <= 255 && Holds(input, pos, [|n|] + n) && Holds(input, pos + 1 + |n|, port) && |port| == 2
    ensures ReadTarget(input, pos, 3, ntop) == NameAndPort(n, port, pos + 1 + |n|)
  {
    HoldsTail(input, pos, |n|, n);
    ReadsNameBytes(input, pos, n, ntop);
    PortAfterName(input, pos + 1 + |n|, Decode(n), port);
  }

  function NameAndPort(n: Bytes, port: Bytes, end: nat): Parsed
    requires |port| == 2
  {
    if Decode(n).None? then Fails(end) else Got(Domain(Decode(n).value, PortOf(port)), end + 2)
  }

  /** What a request's address and port read as, when the address ends at `end`. */
  function Reading(dest: Dest, port: Bytes, end: nat, ntop: Bytes -> seq<Rune>): Parsed
    requires dest.Valid() && |port| == 2
  {
    match dest
    case Ip4(a) => Got(V4(Dotted(a), PortOf(port)), end + 2)
    case Host(n) => NameAndPort(n, port, end)
    case Ip6(a) => Got(V6(ntop(a), PortOf(port)), end + 2)
  }

  /** Reading the address and port of a request anywhere in a stream. */
  lemma ReadsTarget(input: Bytes, pos: nat, dest: Dest, port: Bytes, ntop: Bytes -> seq<Rune>)
    requires dest.Valid() && |port| == 2
    requires Holds(input, pos, dest.Body()) && Holds(input, pos + |dest.Body()|, port)
    ensures ReadTarget(input, pos, dest.Atyp(), ntop) == Reading(dest, port, pos + |dest.Body()|, ntop)
  {
    match dest {
      case Ip4(a) => ReadsIp4(input, pos, a, port, ntop);
      case Ip6(a) => ReadsIp6(input, pos, a, port, ntop);
      case Host(n) => ReadsName(input, pos, n, port, ntop);
    }
  }

  /** Ports are in network byte order. */
  lemma PortRoundTrip(port: Bytes)
    requires |port| == 2
    ensures PortOf(port) < 0x10000 && PortBytes(PortOf(port)) == port
    ensures PortOf([1, 187]) == 443
  {
  }

  lemma HeadsDiffer(ver: Byte, rsv: Byte, atyp: Byte, sent: Byte, x: Bytes, y: Bytes)
    ensures Head4(5, 0, sent) + x == Head4(ver, rsv, atyp) + y <==> ver == 5 && rsv == 0 && sent == atyp && x == y
  {
    var a, b := Head4(5, 0, sent) + x, Head4(ver, rsv, atyp) + y;
    assert a[0] == 5 && a[2] == 0 && a[3] == sent && a[4..] == x;
    assert b[0] == ver && b[2] == rsv && b[3] == atyp && b[4..] == y;
  }

  lemma BodiesDiffer(n: Byte, name: Bytes, m: Byte, other: Bytes, port: Bytes)
    requires |name| == |other|
    ensures [n] + name + port == [m] + other + port <==> n == m && name == other
  {
    var a, b := [n] + name + port, [m] + other + port;
    assert a[0] == n && a[1..1 + |name|] == name;
    assert b[0] == m && b[1..1 + |name|] == other;
  }

  lemma PrintsV4(a: Bytes, port: Bytes)
    requires |a| == 4 && |port| == 2
    ensures PrintTarget(V4(Dotted(a), PortOf(port))) == Some(Head4(5, 0, 1) + (a + port))
  {
    PortRoundTrip(port);
    UndottedDotted(a);
    assert Undotted(Dotted(a)).value == a;
    assert PortBytes(PortOf(port)) == port;
  }

  lemma PrintsName(runes: seq<Rune>, port: Bytes)
    requires |runes| <= 255 && |port| == 2
    ensures PrintTarget(Domain(runes, PortOf(port))) == Some(Head4(5, 0, 3) + ([|runes|] + Encode(runes) + port))
    ensures PrintTarget(V6(runes, PortOf(port))) == PrintTarget(Domain(runes, PortOf(port)))
  {
    PortRoundTrip(port);
  }

  /** The bytes sent upstream are the client's own exactly when version and reserved byte are as
      the standard wants and the address is IPv4 or an ASCII name. */
  lemma PrintsSameExactlyWhen(ver: Byte, rsv: Byte, dest: Dest, port: Bytes, ntop: Bytes -> seq<Rune>)
    requires dest.Valid() && |port| == 2 && ShortTexts(ntop) && (dest.Host? ==> Decode(dest.name).Some?)
    ensures var sent := PrintTarget(TargetOf(dest, port, ntop));
            && sent.Some?
            && (sent.value == ClientConnect(ver, rsv, dest, port)
                <==> ver == 5 && rsv == 0 && (dest.Ip4? || (dest.Host? && Ascii(dest.name))))
  {
    match dest {
      case Ip4(a) =>
        PrintsV4(a, port);
        HeadsDiffer(ver, rsv, 1, 1, a + port, a + port);
      case Ip6(a) =>
        PrintsName(ntop(a), port);
        HeadsDiffer(ver, rsv, 4, 3, [|ntop(a)|] + Encode(ntop(a)) + port, a + port);
      case Host(n) =>
        EncodeDecode(n);
        var runes := Decode(n).value;
        PrintsName(runes, port);
        HeadsDiffer(ver, rsv, 3, 3, [|runes|] + n + port, [|n|] + n + port);
        BodiesDiffer(|runes|, n, |n|, n, port);
    }
  }

  /** The host `é`, two bytes of UTF-8: the name goes upstream with a length byte that counts one
      character, so the proxy is sent another request. */
  lemma AccentedHostChanged(port: Bytes, ntop: Bytes -> seq<Rune>)
    requires |port| == 2
    ensures var host := Host([0xC3, 0xA9]);
            && host.Valid() && Decode(host.name).Some?
            && PrintTarget(TargetOf(host, port, ntop)) == Some(Head4(5, 0, 3) + ([1] + [0xC3, 0xA9] + port))
            && PrintTarget(TargetOf(host, port, ntop)) != Some(ClientConnect(5, 0, host, port))
  {
    var n: Bytes := [0xC3, 0xA9];
    assert FirstLength(n) == 2 && n[2..] == [];
    assert Decode(n[2..]) == Some([]);
    assert Decode(n).value == [FirstRune(n)] + [];
    EncodeDecode(n);
    PrintsName(Decode(n).value, port);
    HeadsDiffer(5, 0, 3, 3, [1] + n + port, [2] + n + port);
    BodiesDiffer(1, n, 2, n, port);
  }

  /** A greeting with at least one method. */
  predicate Greets(greeting: Bytes) {
    |greeting| >= 3 && greeting[0] == 5 && greeting[1] == |greeting| - 2
  }

  lemma GreetingConsumed(greeting: Bytes, rest: Bytes, arrived: nat, proxy: Proxy, ntop: Bytes -> seq<Rune>)
    requires Greets(greeting) && arrived >= 2
    ensures Bridge(greeting + rest, arrived, proxy, ntop) == Serve(greeting + rest, |greeting|, proxy, ntop)
  {
    var input, end := greeting + rest, FirstRead(arrived);
    assert input[0] == 5 && input[1] == greeting[1];
    assert Upto(input, 0, end) == end;
    assert Upto(input, end, greeting[1] as int - (end - 2)) == |greeting|;
  }

  /** For a greeting with at least one method, of which two bytes have arrived when it is read, and
      any CONNECT, the bridge consumes exactly greeting and request. An undecodable name raises
      after its last byte; otherwise one message goes upstream after the greeting, byte for byte the
      client's request exactly when version and reserved byte are 5 and 0 and the address is IPv4 or
      an ASCII name. With fewer bytes there, the connection is closed at once. */
  lemma RelaysVerbatimExactlyWhen(methods: Bytes, ver: Byte, rsv: Byte, dest: Dest, port: Bytes, rest: Bytes,
                                  arrived: nat, proxy: Proxy, ntop: Bytes -> seq<Rune>)
    requires 1 <= |methods| <= 255 && dest.Valid() && |port| == 2 && Ready(proxy) && ShortTexts(ntop)
    ensures var asked := ClientConnect(ver, rsv, dest, port);
            var t := Bridge(ClientGreeting(methods) + asked + rest, arrived, proxy, ntop);
            if arrived < 2 then
              t == Trace(arrived, [], [], Closed)
            else if dest.Host? && Decode(dest.name).None? then
              t == Trace(2 + |methods| + |asked| - 2, NO_AUTH, [], Raised)
            else
              && t.consumed == 2 + |methods| + |asked| && t.end == Relaying && t.toClient == NO_AUTH + Reply(0)
              && |t.toProxy| == 2 && t.toProxy[0] == GREETING
              && (t.toProxy[1] == asked
                  <==> ver == 5 && rsv == 0 && (dest.Ip4? || (dest.Host? && Ascii(dest.name))))
  {
    if arrived >= 2 {
      var asked := ClientConnect(ver, rsv, dest, port);
      var end := 2 + |methods| + |asked|;
      BridgesRequest(ClientGreeting(methods), ver, rsv, dest, port, rest, arrived, proxy, ntop);
      if !(dest.Host? && Decode(dest.name).None?) {
        PrintsSameExactlyWhen(ver, rsv, dest, port, ntop);
        DialsReady(TargetOf(dest, port, ntop), proxy, end);
        ReadingIsTarget(dest, port, end - 2, ntop);
      }
    }
  }

  lemma ReadingIsTarget(dest: Dest, port: Bytes, end: nat, ntop: Bytes -> seq<Rune>)
    requires dest.Valid() && |port| == 2 && (dest.Host? ==> Decode(dest.name).Some?)
    ensures Reading(dest, port, end, ntop) == Got(TargetOf(dest, port, ntop), end + 2)
  {
  }

  lemma BridgesRequest(greeting: Bytes, ver: Byte, rsv: Byte, dest: Dest, port: Bytes, rest: Bytes,
                       arrived: nat, proxy: Proxy, ntop: Bytes -> seq<Rune>)
    requires Greets(greeting) && dest.Valid() && |port| == 2 && arrived >= 2
    ensures var asked := ClientConnect(ver, rsv, dest, port);
            Bridge(greeting + asked + rest, arrived, proxy, ntop)
            == Served(Reading(dest, port, |greeting| + |asked| - 2, ntop), proxy)
  {
    var asked := ClientConnect(ver, rsv, dest, port);
    assert greeting + asked + rest == greeting + (asked + rest);
    GreetingConsumed(greeting, asked + rest, arrived, proxy, ntop);
    ServesRequest(greeting, ver, rsv, dest, port, rest, proxy, ntop);
  }

  lemma ServesRequest(before: Bytes, ver: Byte, rsv: Byte, dest: Dest, port: Bytes, rest: Bytes,
                      proxy: Proxy, ntop: Bytes -> seq<Rune>)
    requires dest.Valid() && |port| == 2
    ensures var asked := ClientConnect(ver, rsv, dest, port);
            Serve(before + asked + rest, |before|, proxy, ntop)
            == Served(Reading(dest, port, |before| + |asked| - 2, ntop), proxy)
  {
    var head, body := Head4(ver, rsv, dest.Atyp()), dest.Body();
    RequestSplit(before, head, body, port, rest);
    HeadRead(before, head, body + port + rest);
    TargetReadAfter(before + head, dest, port, rest, ntop);
  }

  lemma TargetReadAfter(before: Bytes, dest: Dest, port: Bytes, rest: Bytes, ntop: Bytes -> seq<Rune>)
    requires dest.Valid() && |port| == 2
    ensures ReadTarget(before + dest.Body() + port + rest, |before|, dest.Atyp(), ntop)
            == Reading(dest, port, |before| + |dest.Body()|, ntop)
  {
    HoldsParts(before, dest.Body(), port, rest);
    ReadsTarget(before + dest.Body() + port + rest, |before|, dest, port, ntop);
  }

  lemma RequestSplit(before: Bytes, head: Bytes, body: Bytes, port: Bytes, rest: Bytes)
    ensures before + (head + (body + port)) + rest == before + head + (body + port + rest)
    ensures before + (head + (body + port)) + rest == (before + head) + body + port + rest
  {
  }

  lemma HeadRead(before: Bytes, head: Bytes, rest: Bytes)
    requires |head| == 4
    ensures var input, pos := before + head + rest, |before|;
            input[pos + 1] == head[1] && input[pos + 3] == head[3] && Upto(input, pos, 4) == pos + 4
  {
  }

  lemma DialsReady(t: Target, proxy: Proxy, pos: nat)
    requires Ready(proxy) && PrintTarget(t).Some?
    ensures Dial(t, proxy, pos) == Trace(pos, NO_AUTH + Reply(0), [GREETING, PrintTarget(t).value], Relaying)
  {
  }

  // ----- what the client and the proxy get to see

  /** The reply codes a client can get, as the bytes sent. */
  const GRANTED: Bytes := [5, 0, 5, 0, 0, 1, 0, 0, 0, 0, 0, 0]
  const UNREACHABLE: Bytes := [5, 0, 5, 4, 0, 1, 0, 0, 0, 0, 0, 0]
  const NO_COMMAND: Bytes := [5, 0, 5, 7, 0, 1, 0, 0, 0, 0, 0, 0]

  lemma RepliesSpelled()
    ensures NO_AUTH + Reply(0) == GRANTED && NO_AUTH + Reply(4) == UNREACHABLE && NO_AUTH + Reply(7) == NO_COMMAND
  {
  }

  /** The reply arrives, has a second byte, and that byte is 0. */
  predicate Agrees(reply: Option<Bytes>) {
    reply.Some? && |reply.value| > 1 && reply.value[1] == 0
  }

  lemma DialOutcome(t: Target, proxy: Proxy, pos: nat)
    ensures var z := Dial(t, proxy, pos);
            && (z.end == Relaying <==> proxy.reachable && Agrees(proxy.greeting) && Agrees(proxy.answer)
                                       && PrintTarget(t).Some?)
            && (z.toClient == GRANTED <==> z.end == Relaying)
            && (z.toClient == UNREACHABLE <==>
                  || !proxy.reachable
                  || (proxy.greeting.Some? && !Agrees(proxy.greeting))
                  || (Agrees(proxy.greeting) && PrintTarget(t).Some? && proxy.answer.Some? && !Agrees(proxy.answer)))
            && (z.toClient == UNREACHABLE <==> z.end == Closed)
            && (z.end == Raised ==> z.toClient == [5, 0])
            && z.toProxy == if !proxy.reachable then []
                            else if !Agrees(proxy.greeting) || PrintTarget(t).None? then [[5, 1, 0]]
                            else [[5, 1, 0], PrintTarget(t).value]
  {
    RepliesSpelled();
    assert UNREACHABLE[3] == 4 && GRANTED[3] == 0 && |NO_AUTH| == 2;
  }

  /** The client is told that it is granted exactly when it is relayed, which is when the proxy
      agreed to the greeting and to a CONNECT that was sent; it is told that the host is unreachable
      only when the proxy could not be reached or disagreed, and then the connection is closed. */
  predicate Truthful(t: Trace, proxy: Proxy) {
    && (t.end == Relaying <==> t.toClient == GRANTED)
    && (t.end == Relaying <==> |t.toProxy| == 2 && Agrees(proxy.answer))
    && (|t.toProxy| == 2 ==> proxy.reachable && Agrees(proxy.greeting))
    && (t.toProxy != [] ==> proxy.reachable && t.toProxy[0] == [5, 1, 0] && |t.toProxy| <= 2)
    && (t.toClient == UNREACHABLE ==>
          t.end == Closed && (proxy.reachable ==> t.toProxy != [])
          && !(proxy.reachable && Agrees(proxy.greeting) && Agrees(proxy.answer)))
    && (t.toProxy != [] && t.end == Closed ==> t.toClient == UNREACHABLE)
    && (t.end == Raised ==> t.toClient == [5, 0])
  }

  lemma DialTruthful(target: Target, proxy: Proxy, at: nat)
    ensures Truthful(Dial(target, proxy, at), proxy)
  {
    DialOutcome(target, proxy, at);
    assert UNREACHABLE[3] == 4 && GRANTED[3] == 0;
  }

  lemma RefusalTruthful(t: Trace, proxy: Proxy)
    requires t.toProxy == [] && t.end != Relaying
    requires t.toClient == [5, 0] || (t.end == Closed && (t.toClient == NO_COMMAND || t.toClient == []))
    ensures Truthful(t, proxy)
  {
    assert NO_COMMAND[3] == 7 && UNREACHABLE[3] == 4 && GRANTED[3] == 0;
  }

  lemma ServeTruthful(input: Bytes, pos: nat, proxy: Proxy, ntop: Bytes -> seq<Rune>)
    requires pos <= |input|
    ensures Truthful(Serve(input, pos, proxy, ntop), proxy)
  {
    ServeOutcome(input, pos, proxy, ntop);
    if target, at :| Serve(input, pos, proxy, ntop) == Dial(target, proxy, at) {
      DialTruthful(target, proxy, at);
    } else {
      RefusalTruthful(Serve(input, pos, proxy, ntop), proxy);
    }
  }

  /** So it is in every connection, whatever the client sends and the proxy does. */
  lemma AnswersExactlyWhen(input: Bytes, arrived: nat, proxy: Proxy, ntop: Bytes -> seq<Rune>)
    ensures Truthful(Bridge(input, arrived, proxy, ntop), proxy)
  {
    var end := Upto(input, 0, FirstRead(arrived));
    if end >= 2 && input[0] == 5 {
      var pos := if input[1] > 0 then Upto(input, end, input[1] as int - (end - 2)) else end;
      ServeTruthful(input, pos, proxy, ntop);
    } else {
      RefusalTruthful(Bridge(input, arrived, proxy, ntop), proxy);
    }
  }

  lemma ServeOutcome(input: Bytes, pos: nat, proxy: Proxy, ntop: Bytes -> seq<Rune>)
    requires pos <= |input|
    ensures var t := Serve(input, pos, proxy, ntop);
            || (t.toProxy == [] && t.toClient == NO_COMMAND && t.end == Closed)
            || (t.toProxy == [] && t.toClient == [5, 0] && t.end != Relaying)
            || (exists target, at :: t == Dial(target, proxy, at))
  {
    RepliesSpelled();
  }

  /** For a greeting with at least one method, a CONNECT whose name (if any) decodes, and any proxy:
      it is relayed exactly when the proxy can be reached and both its replies arrive and agree; the
      client is told that the host is unreachable exactly when the proxy cannot be reached, or the
      first of its replies that does not agree arrives; a missing reply ends the connection without
      an answer. */
  lemma RelaysExactlyWhen(methods: Bytes, ver: Byte, rsv: Byte, dest: Dest, port: Bytes, rest: Bytes,
                          arrived: nat, proxy: Proxy, ntop: Bytes -> seq<Rune>)
    requires 1 <= |methods| <= 255 && dest.Valid() && |port| == 2 && arrived >= 2 && ShortTexts(ntop)
    requires dest.Host? ==> Decode(dest.name).Some?
    ensures var t := Bridge(ClientGreeting(methods) + ClientConnect(ver, rsv, dest, port) + rest, arrived, proxy, ntop);
            var first := if Agrees(proxy.greeting) then proxy.answer else proxy.greeting;
            && (t.end == Relaying <==> proxy.reachable && Agrees(proxy.greeting) && Agrees(proxy.answer))
            && (t.toClient == GRANTED <==> t.end == Relaying)
            && (t.toClient == UNREACHABLE <==> !proxy.reachable || (first.Some? && !Agrees(first)))
            && (t.end == Closed <==> t.toClient == UNREACHABLE)
            && (t.end == Raised <==> proxy.reachable && first.None?)
            && (t.end == Raised ==> t.toClient == [5, 0])
  {
    BridgesRequest(ClientGreeting(methods), ver, rsv, dest, port, rest, arrived, proxy, ntop);
    var end := |methods| + |ClientConnect(ver, rsv, dest, port)|;
    ReadingIsTarget(dest, port, end, ntop);
    PrintsSameExactlyWhen(ver, rsv, dest, port, ntop);
    DialOutcome(TargetOf(dest, port, ntop), proxy, end + 2);
  }

  lemma HeaderRead(greeting: Bytes, head: Bytes, rest: Bytes, arrived: nat, proxy: Proxy, ntop: Bytes -> seq<Rune>)
    requires Greets(greeting) && |head| == 4 && arrived >= 2
    ensures var input, pos := greeting + (head + rest), |greeting|;
            && Bridge(input, arrived, proxy, ntop) == Serve(input, pos, proxy, ntop)
            && input[pos + 1] == head[1] && input[pos + 3] == head[3] && Upto(input, pos, 4) == pos + 4
  {
    GreetingConsumed(greeting, head + rest, arrived, proxy, ntop);
    assert greeting + (head + rest) == greeting + head + rest;
    HeadRead(greeting, head, rest);
  }

  /** Whatever is not a CONNECT is refused as such; a CONNECT to an unknown type of address closes
      the connection without an answer; the proxy sees nothing of either. */
  lemma OtherRequestsRefused(greeting: Bytes, head: Bytes, rest: Bytes, arrived: nat, proxy: Proxy,
                             ntop: Bytes -> seq<Rune>)
    requires Greets(greeting) && |head| == 4 && arrived >= 2
    ensures var t := Bridge(greeting + (head + rest), arrived, proxy, ntop);
            && (head[1] != 1 ==> t == Trace(|greeting| + 4, NO_COMMAND, [], Closed))
            && (head[1] == 1 && head[3] != 1 && head[3] != 3 && head[3] != 4 ==>
                  t == Trace(|greeting| + 4, [5, 0], [], Closed))
  {
    RepliesSpelled();
    HeaderRead(greeting, head, rest, arrived, proxy, ntop);
  }

  lemma CutFails(input: Bytes, pos: nat, dest: Dest, port: Bytes, ntop: Bytes -> seq<Rune>)
    requires dest.Valid() && |port| == 2 && pos <= |input|
    requires input[pos..] < dest.Body() + port
    ensures ReadTarget(input, pos, dest.Atyp(), ntop).Fails?
  {
    var body, left := dest.Body(), |input| - pos;
    assert left < |body| + 2;
    if dest.Host? && left > 0 {
      assert input[pos] == input[pos..][0] == (body + port)[0] == |dest.name|;
    }
  }

  /** A CONNECT that ends before its address and port are complete raises, after the answer to the
      greeting and before anything is sent upstream. */
  lemma CutRequestsRaise(greeting: Bytes, ver: Byte, rsv: Byte, dest: Dest, port: Bytes, cut: Bytes, arrived: nat,
                         proxy: Proxy, ntop: Bytes -> seq<Rune>)
    requires Greets(greeting) && dest.Valid() && |port| == 2 && arrived >= 2 && cut < dest.Body() + port
    ensures var t := Bridge(greeting + (Head4(ver, rsv, dest.Atyp()) + cut), arrived, proxy, ntop);
            t.toClient == [5, 0] && t.toProxy == [] && t.end == Raised
  {
    var head := Head4(ver, rsv, dest.Atyp());
    var input, pos := greeting + (head + cut), |greeting|;
    HeaderRead(greeting, head, cut, arrived, proxy, ntop);
    assert input[pos + 4..] == cut;
    CutFails(input, pos + 4, dest, port, ntop);
    ServesFailure(input, pos, dest.Atyp(), proxy, ntop);
  }

  lemma ServesFailure(input: Bytes, pos: nat, atyp: Byte, proxy: Proxy, ntop: Bytes -> seq<Rune>)
    requires pos + 4 <= |input| && input[pos + 1] == 1 && input[pos + 3] == atyp
    requires ReadTarget(input, pos + 4, atyp, ntop).Fails?
    ensures var t := Serve(input, pos, proxy, ntop); t.toClient == [5, 0] && t.toProxy == [] && t.end == Raised
  {
  }

  /** A client of another version is closed without an answer. */
  lemma OtherVersionsClosed(input: Bytes, arrived: nat, proxy: Proxy, ntop: Bytes -> seq<Rune>)
    requires input != [] && input[0] != 5
    ensures var t := Bridge(input, arrived, proxy, ntop); t.toClient == [] && t.toProxy == [] && t.end == Closed
  {
  }

  /** A request of fewer than four bytes is refused. */
  lemma ShortRequestsRefused(greeting: Bytes, head: Bytes, arrived: nat, proxy: Proxy, ntop: Bytes -> seq<Rune>)
    requires Greets(greeting) && |head| < 4 && arrived >= 2
    ensures Bridge(greeting + head, arrived, proxy, ntop) == Trace(|greeting| + |head|, NO_COMMAND, [], Closed)
  {
    RepliesSpelled();
    GreetingConsumed(greeting, head, arrived, proxy, ntop);
  }

  /** Where nothing but the greeting without methods has arrived, its read stops there. */
  lemma BareGreetingServed(input: Bytes, proxy: Proxy, ntop: Bytes -> seq<Rune>)
    requires |input| >= 2 && input[0] == 5 && input[1] == 0
    ensures Bridge(input, 2, proxy, ntop) == Serve(input, 2, proxy, ntop)
  {
  }

  /** With a third byte there, it is taken for part of the greeting. */
  lemma ThirdByteSwallowed(input: Bytes, arrived: nat, proxy: Proxy, ntop: Bytes -> seq<Rune>)
    requires |input| >= 7 && input[0] == 5 && input[1] == 0 && input[4] == 0 && arrived > 2
    ensures Bridge(input, arrived, proxy, ntop) == Trace(7, NO_AUTH + Reply(7), [], Closed)
  {
  }

  lemma ServedNeverRefuses(p: Parsed, proxy: Proxy)
    ensures Served(p, proxy).toClient != NO_AUTH + Reply(7)
  {
    assert (NO_AUTH + Reply(7))[3] == 7 && (NO_AUTH + Reply(4))[3] == 4 && (NO_AUTH + Reply(0))[3] == 0;
    assert |NO_AUTH + Reply(7)| > |NO_AUTH|;
  }

  lemma BareBytes(greeting: Bytes, ver: Byte, dest: Dest, port: Bytes, rest: Bytes)
    requires |greeting| == 2 && dest.Valid() && |port| == 2
    ensures var input := greeting + ClientConnect(ver, 0, dest, port) + rest;
            |input| >= 7 && input[0] == greeting[0] && input[1] == greeting[1] && input[4] == 0
  {
    assert |dest.Body()| >= 1;
  }

  lemma BareGreeting(greeting: Bytes, ver: Byte, dest: Dest, port: Bytes, rest: Bytes, arrived: nat,
                     proxy: Proxy, ntop: Bytes -> seq<Rune>)
    requires |greeting| == 2 && greeting[0] == 5 && greeting[1] == 0
    requires dest.Valid() && |port| == 2 && arrived >= 2
    ensures var asked := ClientConnect(ver, 0, dest, port);
            Bridge(greeting + asked + rest, arrived, proxy, ntop)
            == if arrived > 2 then Trace(7, NO_AUTH + Reply(7), [], Closed)
               else Served(Reading(dest, port, |asked|, ntop), proxy)
  {
    var input := greeting + ClientConnect(ver, 0, dest, port) + rest;
    BareBytes(greeting, ver, dest, port, rest);
    if arrived > 2 {
      ThirdByteSwallowed(input, arrived, proxy, ntop);
    } else {
      BareGreetingServed(input, proxy, ntop);
      ServesRequest(greeting, ver, 0, dest, port, rest, proxy, ntop);
    }
  }

  /** After a greeting that offers no method, a well-formed CONNECT is refused exactly when some of
      it has arrived by the time the greeting is read; a client that waits for the answer to its
      greeting is served. */
  lemma NoMethodsRefusedExactlyWhen(ver: Byte, dest: Dest, port: Bytes, rest: Bytes, arrived: nat,
                                    proxy: Proxy, ntop: Bytes -> seq<Rune>)
    requires dest.Valid() && |port| == 2 && arrived >= 2
    ensures var asked := ClientConnect(ver, 0, dest, port);
            var t := Bridge(ClientGreeting([]) + asked + rest, arrived, proxy, ntop);
            && (t.toClient == NO_AUTH + Reply(7) <==> arrived > 2)
            && t == if arrived > 2 then Trace(7, NO_AUTH + Reply(7), [], Closed)
                    else Served(Reading(dest, port, |asked|, ntop), proxy)
  {
    BareGreeting(ClientGreeting([]), ver, dest, port, rest, arrived, proxy, ntop);
    ServedNeverRefuses(Reading(dest, port, |ClientConnect(ver, 0, dest, port)|, ntop), proxy);
  }
}
