/**
 The row formatter of netlist.go: a TCP connection record becomes one
 four-column table row, a zero port renders as `*`, and `emptyCells` produces
 the placeholder rows appended under the data.

 An endpoint parser is given as the formatter's inverse, so that the
 formatting of the two address columns can be shown to lose nothing.
 */
module Rows {
  import opened Text

  /** One entry of the kernel's TCP socket table, with addresses already
      rendered as text. Ports are never negative. */
  datatype Conn = Conn(
    protocol: string,
    ip: string,
    port: nat,
    remoteIP: string,
    remotePort: nat,
    state: string)

  /** A displayed table row: Proto, Local, Remote, State. */
  datatype Row = Row(proto: string, local: string, remote: string, state: string)

  /** The placeholder row appended below the data rows. */
  const Filler := Row("---", "---.---.---.---", "---.---.---.---", "<---->")

  /** How many slots `getConnections` asks `emptyCells` for. */
  const FillerSlots := 25

  datatype Option<T> = None | Some(value: T)

  /** Port 0 (unbound or wildcard) is shown as `*`, any other port as its
      decimal numeral, which never contains `*` or `:`. */
  function FormatPort(port: nat): (r: string)
    ensures port == 0 <==> r == "*"
    ensures port > 0 ==> r == Decimal(port)
    ensures |r| >= 1
    ensures '*' in r <==> port == 0
    ensures ':' !in r
  {
    if port == 0 then "*" else Decimal(port)
  }

  /** Inverse of `FormatPort`: `*` reads as 0, a digit string as its value. */
  function ParsePort(t: string): (r: Option<nat>)
  {
    if t == "*" then Some(0)
    else if |t| > 0 && AllDigits(t) then Some(Value(t))
    else None
  }

  lemma ParseFormatPort(port: nat)
    ensures ParsePort(FormatPort(port)) == Some(port)
  {
    if port > 0 {
      ValueOfDecimal(port);
    }
  }

  /** Two ports render alike only when they are the same port. */
  lemma FormatPortInjective(p: nat, q: nat)
    requires FormatPort(p) == FormatPort(q)
    ensures p == q
  {
    ParseFormatPort(p);
    ParseFormatPort(q);
  }

  /** `address:port` as the two address columns show it. The colon placed
      after the address is the last one in the text, since the port text
      never holds a colon; everything after it is the port text. */
  function Endpoint(address: string, port: nat): string {
    address + ":" + FormatPort(port)
  }

  /** Index of the last `:` in `s`, or -1 when there is none. */
  function LastColon(s: string): (k: int)
    ensures -1 <= k < |s|
    ensures k >= 0 ==> s[k] == ':'
    ensures forall j :: k < j < |s| ==> s[j] != ':'
  {
    if |s| == 0 then -1
    else if s[|s| - 1] == ':' then |s| - 1
    else LastColon(s[..|s| - 1])
  }

  /** Splits an `address:port` column at its last colon. The address may hold
      colons of its own; the port text never does. */
  function ParseEndpoint(s: string): (r: Option<(string, nat)>)
  {
    var k := LastColon(s);
    if k < 0 then None
    else
      match ParsePort(s[k + 1..])
      case None => None
      case Some(p) => Some((s[..k], p))
  }

  lemma LastColonOfEndpoint(address: string, t: string)
    requires ':' !in t
    ensures LastColon(address + ":" + t) == |address|
  {
    var s := address + ":" + t;
    var k := LastColon(s);
    assert s[|address|] == ':';
  }

  /** The address column is lossless: address and port come back out. */
  lemma ParseEndpointRoundTrip(address: string, port: nat)
    ensures ParseEndpoint(Endpoint(address, port)) == Some((address, port))
  {
    var s := Endpoint(address, port);
    LastColonOfEndpoint(address, FormatPort(port));
    assert s[|address| + 1..] == FormatPort(port);
    assert s[..|address|] == address;
    ParseFormatPort(port);
  }

  /** The data row for one connection. Only the protocol is upper-cased;
      the state is shown as given. A data row never looks like a filler row,
      whose address columns carry no colon. */
  function FormatRow(c: Conn): (r: Row)
    ensures r.proto == Upper(c.protocol)
    ensures r.state == c.state
    ensures r != Filler
  {
    var local := Endpoint(c.ip, c.port);
    assert local[|c.ip|] == ':';
    Row(Upper(c.protocol), local, Endpoint(c.remoteIP, c.remotePort), c.state)
  }

  /** Both address columns of a data row give back the record's address and
      port. */
  lemma FormatRowRecoversEndpoints(c: Conn)
    ensures ParseEndpoint(FormatRow(c).local) == Some((c.ip, c.port))
    ensures ParseEndpoint(FormatRow(c).remote) == Some((c.remoteIP, c.remotePort))
  {
    ParseEndpointRoundTrip(c.ip, c.port);
    ParseEndpointRoundTrip(c.remoteIP, c.remotePort);
  }

  /** Two connections give the same row exactly when they agree on every
      field except the letter case of the protocol name. */
  lemma FormatRowDistinguishes(c: Conn, d: Conn)
    ensures FormatRow(c) == FormatRow(d) <==>
      && Upper(c.protocol) == Upper(d.protocol)
      && c.ip == d.ip && c.port == d.port
      && c.remoteIP == d.remoteIP && c.remotePort == d.remotePort
      && c.state == d.state
  {
    FormatRowRecoversEndpoints(c);
    FormatRowRecoversEndpoints(d);
  }

  /** The placeholder rows: the loop runs from 0 up to and including
      `slots`, so it yields `slots + 1` rows. A negative `slots` is a
      negative slice capacity, on which the program fails at run time. */
  function EmptyCells(slots: int): (r: seq<Row>)
    requires slots >= 0
    ensures |r| == slots + 1
    ensures forall i :: 0 <= i < |r| ==> r[i] == Filler
    decreases slots
  {
    if slots == 0 then [Filler] else EmptyCells(slots - 1) + [Filler]
  }
}
