/** getaddrinfo's list: ga_port walks it and ga_clone splices copies in behind the cursor. */
module AddrList {
  import opened Options

  const STREAM := 1
  const DGRAM := 2

  datatype Family = Inet | Inet6 | Local

  class SockAddr {
    var ip: seq<int>
    var port: int

    constructor (ip: seq<int>, port: int)
      ensures this.ip == ip && this.port == port
    {
      this.ip, this.port := ip, port;
    }
  }

  /** struct addrinfo; of ai_flags only AI_CLONE. */
  class AddrInfo {
    var clone: bool
    var family: Family
    var socktype: int
    var protocol: int
    var canonname: Option<string>
    const addr: SockAddr
    var next: AddrInfo?

    constructor (e: Entry, next: AddrInfo?)
      ensures Look() == e && this.next == next && fresh(addr)
    {
      clone, family, socktype, protocol, canonname := e.clone, e.family, e.socktype, e.protocol, e.canonname;
      addr := new SockAddr(e.ip, e.port);
      this.next := next;
    }

    function Look(): Entry
      reads this, addr
    {
      Entry(clone, family, socktype, protocol, canonname, addr.ip, addr.port)
    }
  }

  /** What a list entry says, without its place in memory. */
  datatype Entry = Entry(
    clone: bool, family: Family, socktype: int, protocol: int, canonname: Option<string>, ip: seq<int>, port: int)

  // ----- what ga_port does to the entries -----------------------------------------------------

  function Found(e: Entry): nat {
    if e.family.Local? then 0 else 1
  }

  /** The entry with socket type and, for the two families of IP, port filled in. */
  function Filled(e: Entry, port: int, socktype: int): Entry {
    e.(socktype := socktype, port := if e.family.Local? then e.port else port)
  }

  function Cloned(e: Entry): Entry {
    e.(clone := false, canonname := None)
  }

  /** What becomes of one entry, and how much it adds to nfound. */
  function Ported(e: Entry, port: int, socktype: int): (seq<Entry>, nat) {
    if e.clone then
      if e.socktype != 0 then ([e, Filled(Cloned(e), port, socktype)], Found(e))
      else ([Filled(e, port, socktype)], Found(e))
    else if e.socktype != socktype then ([e], 0)
    else ([Filled(e, port, socktype)], Found(e))
  }

  function PortAll(es: seq<Entry>, port: int, socktype: int): (seq<Entry>, nat) {
    if es == [] then ([], 0)
    else
      var (first, found) := Ported(es[0], port, socktype);
      var (rest, more) := PortAll(es[1..], port, socktype);
      (first + rest, found + more)
  }

  // ----- the list ---------------------------------------------------------------------------------

  /** The first of the nodes, or what follows them. */
  function First(nodes: seq<AddrInfo>, tail: AddrInfo?): AddrInfo? {
    if nodes == [] then tail else nodes[0]
  }

  function After(nodes: seq<AddrInfo>, i: nat, tail: AddrInfo?): AddrInfo?
    requires i < |nodes|
  {
    if i + 1 < |nodes| then nodes[i + 1] else tail
  }

  /** The nodes are linked in this order and lead to tail; no node nor address occurs
      twice. */
  ghost predicate Linked(nodes: seq<AddrInfo>, tail: AddrInfo?)
    reads nodes
  {
    && (forall i :: 0 <= i < |nodes| ==> nodes[i].next == After(nodes, i, tail))
    && (forall i, j :: 0 <= i < j < |nodes| ==> nodes[i] != nodes[j] && nodes[i].addr != nodes[j].addr)
  }

  /** No node nor address belongs to both. */
  ghost predicate Apart(left: seq<AddrInfo>, right: seq<AddrInfo>) {
    forall i, j :: 0 <= i < |left| && 0 <= j < |right| ==> left[i] != right[j] && left[i].addr != right[j].addr
  }

  lemma LinkedJoin(left: seq<AddrInfo>, right: seq<AddrInfo>, tail: AddrInfo?)
    requires Linked(left, First(right, tail)) && Linked(right, tail) && Apart(left, right)
    ensures Linked(left + right, tail)
  {
  }

  lemma LinkedSplit(nodes: seq<AddrInfo>, tail: AddrInfo?)
    requires Linked(nodes, tail) && nodes != []
    ensures Linked(nodes[1..], tail) && Apart([nodes[0]], nodes[1..]) && nodes[0].next == First(nodes[1..], tail)
  {
  }

  function Addrs(nodes: seq<AddrInfo>): set<SockAddr> {
    set n | n in nodes :: n.addr
  }

  ghost function Entries(nodes: seq<AddrInfo>): (es: seq<Entry>)
    reads nodes, Addrs(nodes)
    ensures |es| == |nodes| && forall i :: 0 <= i < |nodes| ==> es[i] == nodes[i].Look()
  {
    seq(|nodes|, i requires 0 <= i < |nodes| reads nodes, Addrs(nodes) => nodes[i].Look())
  }

  /** A copy of ai with an address of its own, linked in behind it. */
  method GaClone(ai: AddrInfo) returns (copy: AddrInfo)
    modifies ai`next
    ensures fresh(copy) && fresh(copy.addr)
    ensures ai.next == copy && copy.next == old(ai.next)
    ensures ai.Look() == old(ai.Look()) && copy.Look() == Cloned(ai.Look())
  {
    copy := new AddrInfo(Cloned(ai.Look()), ai.next);
    ai.next := copy;
  }

  /** The body of the loop: ai is visited, and last is the node the loop goes on from. */
  method Visit(ai: AddrInfo, port: int, socktype: int)
    returns (last: AddrInfo, found: nat, ghost step: seq<AddrInfo>)
    modifies ai, ai.addr
    ensures step == (if last == ai then [ai] else [ai, last])
    ensures last != ai ==> fresh(last) && fresh(last.addr) && ai.next == last
    ensures last.next == old(ai.next) && Linked(step, last.next)
    ensures (Entries(step), found) == Ported(old(ai.Look()), port, socktype)
  {
    ghost var e := ai.Look();
    last, found, step := ai, 0, [ai];
    if ai.clone {
      if ai.socktype != 0 {
        last := GaClone(ai);
        step := [ai, last];
      }
    } else if ai.socktype != socktype {
      assert Entries(step) == [e];
      return;
    }
    last.socktype := socktype;
    if !last.family.Local? {
      last.addr.port := port;
      found := 1;
    }
    assert Entries(step) == Ported(e, port, socktype).0;
  }

  lemma EntriesJoin(left: seq<AddrInfo>, right: seq<AddrInfo>)
    ensures Entries(left + right) == Entries(left) + Entries(right)
  {
  }

  lemma ApartParts(left: seq<AddrInfo>, right: seq<AddrInfo>)
    requires Apart(left, right) && right != []
    ensures right[0] !in left && right[0].addr !in Addrs(left)
    ensures Apart(left, right[1..])
  {
  }

  lemma ApartOne(ai: AddrInfo, right: seq<AddrInfo>)
    requires Apart([ai], right)
    ensures ai !in right && ai.addr !in Addrs(right)
  {
    assert [ai][0] == ai;
  }

  lemma ApartGrows(left: seq<AddrInfo>, step: seq<AddrInfo>, right: seq<AddrInfo>)
    requires Apart(left, right) && Apart(step, right)
    ensures Apart(left + step, right)
  {
  }

  lemma StepApart(left: seq<AddrInfo>, step: seq<AddrInfo>)
    requires forall n :: n in step ==> n !in left && n.addr !in Addrs(left)
    ensures Apart(left, step) && Apart(step, left)
  {
    forall i, j | 0 <= i < |left| && 0 <= j < |step|
      ensures left[i] != step[j] && left[i].addr != step[j].addr
    {
      assert step[j] in step && left[i] in left && left[i].addr in Addrs(left);
    }
  }

  lemma PortNone(port: int, socktype: int)
    ensures PortAll([], port, socktype) == ([], 0)
  {
  }

  lemma PortNext(es: seq<Entry>, port: int, socktype: int)
    requires es != []
    ensures PortAll(es, port, socktype).0 == Ported(es[0], port, socktype).0 + PortAll(es[1..], port, socktype).0
    ensures PortAll(es, port, socktype).1 == Ported(es[0], port, socktype).1 + PortAll(es[1..], port, socktype).1
  {
  }

  lemma EntriesRest(nodes: seq<AddrInfo>)
    requires nodes != []
    ensures Entries(nodes) != [] && Entries(nodes)[0] == nodes[0].Look() && Entries(nodes)[1..] == Entries(nodes[1..])
  {
  }

  /** One turn of the loop: what is done grows by step, and the rest is as it was. */
  method Advance(ai: AddrInfo, port: int, socktype: int, ghost done: seq<AddrInfo>, ghost rest: seq<AddrInfo>)
    returns (next: AddrInfo?, found: nat, ghost step: seq<AddrInfo>)
    requires rest != [] && rest[0] == ai
    requires Linked(done, ai) && Linked(rest, null) && Apart(done, rest)
    modifies ai, ai.addr
    ensures step != [] && step[0] == ai && next == First(rest[1..], null)
    ensures forall n :: n in step ==> n == ai || (fresh(n) && fresh(n.addr))
    ensures Linked(done + step, next) && Linked(rest[1..], null) && Apart(done + step, rest[1..])
    ensures Entries(done + step) == old(Entries(done)) + old(Ported(ai.Look(), port, socktype)).0
    ensures found == old(Ported(ai.Look(), port, socktype)).1
    ensures Entries(rest[1..]) == old(Entries(rest[1..]))
  {
    hide Entries, Linked, Apart, Ported;
    LinkedSplit(rest, null);
    ApartParts(done, rest);
    ApartOne(ai, rest[1..]);
    var last;
    last, found, step := Visit(ai, port, socktype);
    next := last.next;
    EntriesJoin(done, step);
    StepApart(done, step);
    LinkedJoin(done, step, next);
    StepApart(rest[1..], step);
    ApartGrows(done, step, rest[1..]);
  }

  /** Behind the cursor nothing is visited again, so that the walk ends although it
      inserts nodes. */
  method GaPort(aihead: AddrInfo?, port: int, socktype: int, ghost nodes: seq<AddrInfo>)
    returns (nfound: nat, ghost after: seq<AddrInfo>)
    requires Linked(nodes, null) && aihead == First(nodes, null)
    modifies nodes, Addrs(nodes)
    ensures Linked(after, null) && First(after, null) == aihead
    ensures (Entries(after), nfound) == old(PortAll(Entries(nodes), port, socktype))
    ensures forall n :: n in after ==> (n in nodes || fresh(n)) && (n.addr in Addrs(nodes) || fresh(n.addr))
  {
    hide PortAll, Entries, Linked, Apart, Ported;
    nfound := 0;
    var ai := aihead;
    ghost var all := PortAll(Entries(nodes), port, socktype);
    ghost var done, rest := [], nodes;
    Nothing(ai, nodes);
    while ai != null
      invariant ai == First(rest, null) && First(done, ai) == aihead
      invariant Linked(done, ai) && Linked(rest, null) && Apart(done, rest)
      invariant forall n :: n in rest ==> n in nodes
      invariant forall n :: n in done ==> (n in nodes || fresh(n)) && (n.addr in Addrs(nodes) || fresh(n.addr))
      invariant Entries(done) + PortAll(Entries(rest), port, socktype).0 == all.0
      invariant nfound + PortAll(Entries(rest), port, socktype).1 == all.1
      decreases |rest|
    {
      assert ai in rest && ai in nodes && ai.addr in Addrs(nodes);
      EntriesRest(rest);
      PortNext(Entries(rest), port, socktype);
      var next, found, step := Advance(ai, port, socktype, done, rest);
      nfound := nfound + found;
      done := done + step;
      rest := rest[1..];
      ai := next;
    }
    after := done;
    PortNone(port, socktype);
    assert Entries(done) + [] == Entries(done);
  }

  lemma Nothing(ai: AddrInfo?, nodes: seq<AddrInfo>)
    ensures Linked([], ai) && Apart([], nodes) && Entries([]) == []
  {
  }

  // ----- the two calls of ga_serv -----------------------------------------------------------

  /** What the service string is: a port number, or a name with what getservbyname knows. */
  datatype Service = Number(port: int) | Name(tcp: Option<int>, udp: Option<int>)

  datatype Code = Ok | NoName | NoService

  /** The ports for the two passes; with a hint other than STREAM and DGRAM a number
      serves a single pass with that type. */
  function TcpPort(service: Service, hint: int): Option<int> {
    match service
    case Number(port) => if hint == 0 || hint == STREAM then Some(port) else None
    case Name(tcp, udp) => if hint == 0 || hint == STREAM then tcp else None
  }

  function UdpPort(service: Service, hint: int): Option<int> {
    match service
    case Number(port) => if hint == 0 || hint == DGRAM then Some(port) else None
    case Name(tcp, udp) => if hint == 0 || hint == DGRAM then udp else None
  }

  function Pass(es: seq<Entry>, port: Option<int>, socktype: int): (seq<Entry>, nat) {
    if port.None? then (es, 0) else PortAll(es, port.value, socktype)
  }

  /** The list and the number of hits behind ga_serv. */
  function Serv(es: seq<Entry>, service: Service, hint: int): (seq<Entry>, nat) {
    if service.Number? && hint !in {0, STREAM, DGRAM} then PortAll(es, service.port, hint)
    else
      var (streams, found) := Pass(es, TcpPort(service, hint), STREAM);
      var (both, more) := Pass(streams, UdpPort(service, hint), DGRAM);
      (both, found + more)
  }

  method GaServ(aihead: AddrInfo?, hint: int, service: Service, ghost nodes: seq<AddrInfo>)
    returns (code: Code, ghost after: seq<AddrInfo>)
    requires Linked(nodes, null) && aihead == First(nodes, null)
    modifies nodes, Addrs(nodes)
    ensures Linked(after, null) && First(after, null) == aihead
    ensures Entries(after) == old(Serv(Entries(nodes), service, hint)).0
    ensures code == if old(Serv(Entries(nodes), service, hint)).1 > 0 then Ok else if hint == 0 then NoName else NoService
  {
    hide PortAll, Entries, Linked, Apart;
    var nfound: nat, rc: nat := 0, 0;
    after := nodes;
    match service {
      case Number(port) =>
        if hint != 0 {
          rc, after := GaPort(aihead, port, hint, after);
          nfound := nfound + rc;
        } else {
          rc, after := GaPort(aihead, port, STREAM, after);
          nfound := nfound + rc;
          rc, after := GaPort(aihead, port, DGRAM, after);
          nfound := nfound + rc;
        }
      case Name(tcp, udp) =>
        if hint == 0 || hint == STREAM {
          if tcp.Some? {
            rc, after := GaPort(aihead, tcp.value, STREAM, after);
            nfound := nfound + rc;
          }
        }
        if hint == 0 || hint == DGRAM {
          if udp.Some? {
            rc, after := GaPort(aihead, udp.value, DGRAM, after);
            nfound := nfound + rc;
          }
        }
    }
    if nfound == 0 {
      code := if hint == 0 then NoName else NoService;
    } else {
      code := Ok;
    }
  }

  // ----- what the caller gets ---------------------------------------------------------------

  /** An entry as the host part leaves it when the caller gave no socket type. */
  predicate Cloneable(e: Entry) {
    e.clone && e.socktype == 0 && !e.family.Local?
  }

  lemma {:induction false} FirstPass(es: seq<Entry>, port: int, socktype: int)
    requires forall i :: 0 <= i < |es| ==> Cloneable(es[i])
    ensures var (filled, found) := PortAll(es, port, socktype);
      |filled| == found == |es| && forall i :: 0 <= i < |es| ==> filled[i] == es[i].(socktype := socktype, port := port)
  {
    if es != [] {
      FirstPass(es[1..], port, socktype);
      PortNext(es, port, socktype);
      var rest := PortAll(es[1..], port, socktype).0;
      assert PortAll(es, port, socktype).0 == [Filled(es[0], port, socktype)] + rest;
    }
  }

  lemma {:induction false} SecondPass(es: seq<Entry>, streams: seq<Entry>, tcp: int, udp: int)
    requires |es| == |streams| && forall i :: 0 <= i < |es| ==> Cloneable(es[i]) && streams[i] == Filled(es[i], tcp, STREAM)
    ensures var (both, found) := PortAll(streams, udp, DGRAM);
      && |both| == 2 * |es| && found == |es|
      && forall i :: 0 <= i < |es| ==>
           both[2 * i] == Filled(es[i], tcp, STREAM) && both[2 * i + 1] == Filled(Cloned(es[i]), udp, DGRAM)
  {
    if es != [] {
      SecondPass(es[1..], streams[1..], tcp, udp);
      PortNext(streams, udp, DGRAM);
      var rest := PortAll(streams[1..], udp, DGRAM).0;
      var both := PortAll(streams, udp, DGRAM).0;
      assert both == [streams[0], Filled(Cloned(es[0]), udp, DGRAM)] + rest;
      forall i | 0 < i < |es|
        ensures both[2 * i] == Filled(es[i], tcp, STREAM) && both[2 * i + 1] == Filled(Cloned(es[i]), udp, DGRAM)
      {
        assert both[2 * i] == rest[2 * (i - 1)] && both[2 * i + 1] == rest[2 * (i - 1) + 1];
      }
    }
  }

  /** With no socket type asked for and a service known for both protocols, every address
      comes twice, in the order of the list: as a stream with the TCP port, then as a
      datagram with the UDP port. A port number is both. */
  lemma EachAddressTwice(es: seq<Entry>, service: Service, tcp: int, udp: int)
    requires forall i :: 0 <= i < |es| ==> Cloneable(es[i])
    requires service == Name(Some(tcp), Some(udp)) || (service == Number(tcp) && tcp == udp)
    ensures var (both, found) := Serv(es, service, 0);
      && |both| == found == 2 * |es|
      && forall i :: 0 <= i < |es| ==>
           && both[2 * i] == es[i].(socktype := 1, port := tcp)
           && both[2 * i + 1] == es[i].(socktype := 2, port := udp, clone := false, canonname := None)
  {
    hide PortAll;
    FirstPass(es, tcp, STREAM);
    SecondPass(es, PortAll(es, tcp, STREAM).0, tcp, udp);
  }

  /** A name known for one protocol alone gives every address once, with its type and
      port; one known for neither is no hit. */
  lemma EachAddressOnce(es: seq<Entry>, port: int)
    requires forall i :: 0 <= i < |es| ==> Cloneable(es[i])
    ensures var (streams, found) := Serv(es, Name(Some(port), None), 0);
      |streams| == found == |es| && forall i :: 0 <= i < |es| ==> streams[i] == es[i].(socktype := 1, port := port)
    ensures var (datagrams, found) := Serv(es, Name(None, Some(port)), 0);
      |datagrams| == found == |es| && forall i :: 0 <= i < |es| ==> datagrams[i] == es[i].(socktype := 2, port := port)
    ensures Serv(es, Name(None, None), 0) == (es, 0)
  {
    hide PortAll;
    FirstPass(es, port, STREAM);
    FirstPass(es, port, DGRAM);
  }

  /** An entry as the host part leaves it when the caller asked for this type. */
  predicate Asked(e: Entry, hint: int) {
    !e.clone && e.socktype == hint && !e.family.Local?
  }

  /** With a socket type asked for, every address gets the port of the service for that
      type: the number, the TCP port for STREAM, the UDP port for DGRAM. Without one, and
      for a name with any other type, nothing changes and nothing is hit. */
  lemma OneTypeAsked(es: seq<Entry>, service: Service, hint: int, port: Option<int>)
    requires hint != 0 && forall i :: 0 <= i < |es| ==> Asked(es[i], hint)
    requires match service
      case Number(p) => port == Some(p)
      case Name(tcp, udp) => port == if hint == 1 then tcp else if hint == 2 then udp else None
    ensures port.None? ==> Serv(es, service, hint) == (es, 0)
    ensures port.Some? ==>
      var (asked, found) := Serv(es, service, hint);
      |asked| == found == |es| && forall i :: 0 <= i < |es| ==> asked[i] == es[i].(port := port.value)
  {
    hide PortAll;
    if port.Some? {
      AskedPass(es, port.value, hint);
    }
  }

  lemma {:induction false} AskedPass(es: seq<Entry>, port: int, hint: int)
    requires forall i :: 0 <= i < |es| ==> Asked(es[i], hint)
    ensures var (asked, found) := PortAll(es, port, hint);
      |asked| == found == |es| && forall i :: 0 <= i < |es| ==> asked[i] == es[i].(port := port)
  {
    if es != [] {
      AskedPass(es[1..], port, hint);
      PortNext(es, port, hint);
      var rest := PortAll(es[1..], port, hint).0;
      assert PortAll(es, port, hint).0 == [es[0].(port := port)] + rest;
    }
  }

  /** An address that is not an IP address keeps its port and is no hit, copies included. */
  lemma {:induction false} LocalsKeepPorts(es: seq<Entry>, port: int, socktype: int)
    requires forall i :: 0 <= i < |es| ==> es[i].family.Local?
    ensures PortAll(es, port, socktype).1 == 0
    ensures forall i :: 0 <= i < |PortAll(es, port, socktype).0| ==>
      exists j :: 0 <= j < |es| && PortAll(es, port, socktype).0[i].port == es[j].port && PortAll(es, port, socktype).0[i].ip == es[j].ip
  {
    if es != [] {
      LocalsKeepPorts(es[1..], port, socktype);
      PortNext(es, port, socktype);
      var first: seq<Entry>, rest: seq<Entry> := Ported(es[0], port, socktype).0, PortAll(es[1..], port, socktype).0;
      var all: seq<Entry> := first + rest;
      forall i | 0 <= i < |all|
        ensures exists j :: 0 <= j < |es| && all[i].port == es[j].port && all[i].ip == es[j].ip
      {
        if i < |first| {
          assert all[i].port == es[0].port && all[i].ip == es[0].ip;
        } else {
          var j :| 0 <= j < |es[1..]| && rest[i - |first|].port == es[1..][j].port && rest[i - |first|].ip == es[1..][j].ip;
          assert es[j + 1] == es[1..][j];
        }
      }
    }
  }

  /** A pass counts a hit exactly if some IP entry may be cloned or has the type. */
  lemma {:induction false} HitsExist(es: seq<Entry>, port: int, socktype: int)
    ensures PortAll(es, port, socktype).1 > 0
      <==> exists i :: 0 <= i < |es| && !es[i].family.Local? && (es[i].clone || es[i].socktype == socktype)
  {
    if es != [] {
      HitsExist(es[1..], port, socktype);
      PortNext(es, port, socktype);
      assert forall i :: 0 < i < |es| ==> es[i] == es[1..][i - 1];
      if PortAll(es[1..], port, socktype).1 > 0 {
        var i :| 0 <= i < |es[1..]| && !es[1..][i].family.Local? && (es[1..][i].clone || es[1..][i].socktype == socktype);
        assert es[i + 1] == es[1..][i];
      }
    }
  }

  /** A list without cloneable entries keeps its length: where the type fits the port is
      filled in, and nothing else changes. */
  lemma {:induction false} PlainListKept(es: seq<Entry>, port: int, socktype: int)
    requires forall i :: 0 <= i < |es| ==> !es[i].clone
    ensures |PortAll(es, port, socktype).0| == |es|
    ensures forall i :: 0 <= i < |es| ==>
      PortAll(es, port, socktype).0[i]
        == if es[i].socktype == socktype && !es[i].family.Local? then es[i].(port := port) else es[i]
  {
    if es != [] {
      PlainListKept(es[1..], port, socktype);
      PortNext(es, port, socktype);
    }
  }
}
