/**
 The key under which a packet is hashed onto a link: ExtractSrc on the client, ExtractDst on the server.
 Field offsets follow section 3.1 of RFC 791 (addresses at 12 and 16, protocol at 9) and section 3.1 of
 RFC 9293 (ports in the first four bytes after the IP header). Both builders read the ports at the fixed
 offsets 20 to 23, as the source does.
 */
module FlowKey {
  import opened Basics
  import opened Decimal

  const PROTO_TCP: byte := 6

  /** The tun loops hand over their whole 65535-byte buffer, and the packet's own length beside it. */
  predicate IsBuffer(frame: seq<byte>) {
    |frame| == 65535
  }

  /** The two bytes of a port, most significant first. */
  datatype Port = Port(hi: byte, lo: byte)

  datatype Addr = Addr(a: byte, b: byte, c: byte, d: byte)

  /** What the key builders look at. */
  datatype Flow =
    | Tcp(sport: Port, dport: Port, src: Addr, dst: Addr)
    | Other(src: Addr, dst: Addr)

  function PortText(p: Port): string {
    HexByte(p.hi) + HexByte(p.lo)
  }

  function AddrText(x: Addr): string {
    Fmt(x.a) + ['.'] + (Fmt(x.b) + ['.'] + (Fmt(x.c) + ['.'] + Fmt(x.d)))
  }

  function AddrAt(frame: seq<byte>, i: nat): Addr
    requires i + 4 <= |frame|
  {
    Addr(frame[i], frame[i + 1], frame[i + 2], frame[i + 3])
  }

  function Key4(a: string, b: string, c: string, d: string): string {
    a + [':'] + (b + [':'] + (c + [':'] + d))
  }

  function Key2(a: string, b: string): string {
    a + [':'] + b
  }

  /** The server's key. */
  function ExtractDst(frame: seq<byte>, n: nat): string
    requires IsBuffer(frame)
  {
    var src, dst := AddrAt(frame, 12), AddrAt(frame, 16);
    if frame[9] == PROTO_TCP && n >= 24 then
      Key4(HexByte(frame[22]) + HexByte(frame[23]), HexByte(frame[20]) + HexByte(frame[21]),
           AddrText(src), AddrText(dst))
    else
      Key2(AddrText(src), AddrText(dst))
  }

  /** The client's key. */
  function ExtractSrc(frame: seq<byte>, n: nat): string
    requires IsBuffer(frame)
  {
    var src, dst := AddrAt(frame, 12), AddrAt(frame, 16);
    if frame[9] == PROTO_TCP && n >= 24 then
      Key4(HexByte(frame[20]) + HexByte(frame[21]), HexByte(frame[22]) + HexByte(frame[23]),
           AddrText(dst), AddrText(src))
    else
      Key2(AddrText(dst), AddrText(src))
  }

  /** The header fields of a packet, independent of how either key is laid out. */
  function Parse(frame: seq<byte>, n: nat): Flow
    requires IsBuffer(frame)
  {
    if frame[9] == PROTO_TCP && n >= 24 then
      Tcp(Port(frame[20], frame[21]), Port(frame[22], frame[23]), AddrAt(frame, 12), AddrAt(frame, 16))
    else
      Other(AddrAt(frame, 12), AddrAt(frame, 16))
  }

  /** The same conversation seen from the far end: addresses and ports swapped. */
  function Reply(f: Flow): Flow {
    match f
    case Tcp(sp, dp, s, d) => Tcp(dp, sp, d, s)
    case Other(s, d) => Other(d, s)
  }

  /** The one other port, if any, whose unpadded hex text coincides with p's. */
  function Twin(p: Port): Port {
    if 1 <= p.hi < 16 && p.lo >= 16 then Port(p.hi * 16 + p.lo / 16, p.lo % 16)
    else if p.hi >= 16 && p.hi % 16 != 0 && p.lo < 16 then Port(p.hi / 16, p.hi % 16 * 16 + p.lo)
    else p
  }

  predicate SamePort(p: Port, q: Port) {
    q == p || q == Twin(p)
  }

  /** Flows the hash cannot tell apart. */
  predicate Alike(f: Flow, g: Flow) {
    match (f, g)
    case (Tcp(sp, dp, s, d), Tcp(sp', dp', s', d')) => SamePort(sp, sp') && SamePort(dp, dp') && s == s' && d == d'
    case (Other(s, d), Other(s', d')) => s == s' && d == d'
    case _ => false
  }

  // ----- ports -----

  lemma HexByteIff(b: byte, c: byte)
    ensures HexByte(b) == HexByte(c) <==> b == c
    ensures |HexByte(b)| == if b < 16 then 1 else 2
    ensures ':' !in HexByte(b) && '.' !in HexByte(b)
  {
    if b < 16 && c < 16 {
      HexDigitInjective(b, c);
    } else if b >= 16 && c >= 16 {
      HexDigitInjective(b / 16, c / 16);
      HexDigitInjective(b % 16, c % 16);
    }
  }

  /** A three-digit text splits as one digit and two, or as two digits and one. */
  lemma ShortLongIff(p: Port, q: Port)
    requires p.hi < 16 && p.lo >= 16 && q.hi >= 16 && q.lo < 16
    ensures PortText(p) == PortText(q) <==> p.hi == q.hi / 16 && p.lo / 16 == q.hi % 16 && p.lo % 16 == q.lo
    ensures q == Twin(p) <==> p.hi == q.hi / 16 && p.lo / 16 == q.hi % 16 && p.lo % 16 == q.lo
    ensures p == Twin(q) <==> p.hi == q.hi / 16 && p.lo / 16 == q.hi % 16 && p.lo % 16 == q.lo
  {
    HexDigitInjective(p.hi, q.hi / 16);
    HexDigitInjective(p.lo / 16, q.hi % 16);
    HexDigitInjective(p.lo % 16, q.lo);
    assert PortText(p) == [HexDigit(p.hi), HexDigit(p.lo / 16), HexDigit(p.lo % 16)];
    assert PortText(q) == [HexDigit(q.hi / 16), HexDigit(q.hi % 16), HexDigit(q.lo)];
  }

  /** When the first bytes print to the same width, the two texts agree only on equal ports. */
  lemma SameWidth(p: Port, q: Port)
    requires (p.hi < 16) == (q.hi < 16)
    ensures PortText(p) == PortText(q) <==> p == q
  {
    HexByteIff(p.hi, q.hi);
    HexByteIff(q.hi, p.hi);
    HexByteIff(p.lo, q.lo);
    var k := |HexByte(p.hi)|;
    assert PortText(p)[..k] == HexByte(p.hi) && PortText(p)[k..] == HexByte(p.lo);
    assert PortText(q)[..k] == HexByte(q.hi) && PortText(q)[k..] == HexByte(q.lo);
  }

  /** Two ports print alike exactly when they are equal or twins: each text has at most two readings. */
  lemma PortTextIff(p: Port, q: Port)
    ensures PortText(p) == PortText(q) <==> SamePort(p, q)
  {
    if (p.hi < 16) == (q.hi < 16) {
      SameWidth(p, q);
    } else if p.hi < 16 && p.lo >= 16 && q.lo < 16 {
      ShortLongIff(p, q);
    } else if q.hi < 16 && q.lo >= 16 && p.lo < 16 {
      ShortLongIff(q, p);
    } else {
      PortTextLength(p);
      PortTextLength(q);
      assert |PortText(p)| != |PortText(q)|;
    }
  }

  lemma PortTextLength(p: Port)
    ensures |PortText(p)| == (if p.hi < 16 then 1 else 2) + (if p.lo < 16 then 1 else 2)
  {
    HexByteIff(p.hi, p.hi);
    HexByteIff(p.lo, p.lo);
  }

  lemma PortTextPlain(p: Port)
    ensures ':' !in PortText(p) && '.' !in PortText(p)
  {
    HexByteIff(p.hi, p.hi);
    HexByteIff(p.lo, p.lo);
  }

  // ----- addresses -----

  lemma AddrTextIff(x: Addr, y: Addr)
    ensures AddrText(x) == AddrText(y) <==> x == y
  {
    if AddrText(x) == AddrText(y) {
      FmtHasNo(x.a, '.'); FmtHasNo(x.b, '.'); FmtHasNo(x.c, '.');
      FmtHasNo(y.a, '.'); FmtHasNo(y.b, '.'); FmtHasNo(y.c, '.');
      var x3, y3 := Fmt(x.c) + ['.'] + Fmt(x.d), Fmt(y.c) + ['.'] + Fmt(y.d);
      var x2, y2 := Fmt(x.b) + ['.'] + x3, Fmt(y.b) + ['.'] + y3;
      FirstField(Fmt(x.a), Fmt(y.a), '.', x2, y2);
      FirstField(Fmt(x.b), Fmt(y.b), '.', x3, y3);
      FirstField(Fmt(x.c), Fmt(y.c), '.', Fmt(x.d), Fmt(y.d));
      FmtInjective(x.a, y.a); FmtInjective(x.b, y.b); FmtInjective(x.c, y.c); FmtInjective(x.d, y.d);
    }
  }

  lemma AddrTextPlain(x: Addr)
    ensures ':' !in AddrText(x) && '.' in AddrText(x)
  {
    FmtHasNo(x.a, ':'); FmtHasNo(x.b, ':'); FmtHasNo(x.c, ':'); FmtHasNo(x.d, ':');
    assert AddrText(x)[|Fmt(x.a)|] == '.';
  }

  // ----- whole keys -----

  lemma Key4Iff(a: string, b: string, c: string, d: string, a': string, b': string, c': string, d': string)
    requires ':' !in a && ':' !in b && ':' !in c && ':' !in a' && ':' !in b' && ':' !in c'
    ensures Key4(a, b, c, d) == Key4(a', b', c', d') <==> a == a' && b == b' && c == c' && d == d'
  {
    if Key4(a, b, c, d) == Key4(a', b', c', d') {
      var x3, y3 := c + [':'] + d, c' + [':'] + d';
      var x2, y2 := b + [':'] + x3, b' + [':'] + y3;
      FirstField(a, a', ':', x2, y2);
      FirstField(b, b', ':', x3, y3);
      FirstField(c, c', ':', d, d');
    }
  }

  /** The key as the client lays it out, read off the parsed header. */
  function FlowText(f: Flow): string {
    match f
    case Tcp(sp, dp, s, d) => Key4(PortText(sp), PortText(dp), AddrText(d), AddrText(s))
    case Other(s, d) => Key2(AddrText(d), AddrText(s))
  }

  lemma FlowTextIff(f: Flow, g: Flow)
    ensures FlowText(f) == FlowText(g) <==> Alike(f, g)
  {
    AddrTextPlain(f.src); AddrTextPlain(f.dst); AddrTextPlain(g.src); AddrTextPlain(g.dst);
    AddrTextIff(f.src, g.src); AddrTextIff(f.dst, g.dst);
    match (f, g)
    case (Tcp(sp, dp, s, d), Tcp(sp', dp', s', d')) =>
      PortTextPlain(sp); PortTextPlain(dp); PortTextPlain(sp'); PortTextPlain(dp');
      PortTextIff(sp, sp'); PortTextIff(dp, dp');
      Key4Iff(PortText(sp), PortText(dp), AddrText(d), AddrText(s),
              PortText(sp'), PortText(dp'), AddrText(d'), AddrText(s'));
    case (Other(s, d), Other(s', d')) =>
      if FlowText(f) == FlowText(g) {
        FirstField(AddrText(d), AddrText(d'), ':', AddrText(s), AddrText(s'));
      }
    case (Tcp(sp, dp, s, d), Other(s', d')) =>
      MixedKeys(f, g);
    case (Other(s, d), Tcp(sp, dp, s', d')) =>
      MixedKeys(g, f);
  }

  lemma MixedKeys(f: Flow, g: Flow)
    requires f.Tcp? && g.Other?
    ensures FlowText(f) != FlowText(g)
  {
    PortTextPlain(f.sport);
    AddrTextPlain(g.dst);
    var rest := PortText(f.dport) + [':'] + (AddrText(f.dst) + [':'] + AddrText(f.src));
    if FlowText(f) == FlowText(g) {
      FirstField(PortText(f.sport), AddrText(g.dst), ':', rest, AddrText(g.src));
    }
  }

  /** Equal client keys, for any two packets: exactly the flows that differ at most by twin ports. */
  lemma ClientKeysEqualIff(p: seq<byte>, n: nat, q: seq<byte>, m: nat)
    requires IsBuffer(p) && IsBuffer(q)
    ensures ExtractSrc(p, n) == ExtractSrc(q, m) <==> Alike(Parse(p, n), Parse(q, m))
  {
    FlowTextIff(Parse(p, n), Parse(q, m));
  }

  /** A client key equals a server key exactly when one packet answers the other, up to twin ports. */
  lemma BothEndsKeyIff(p: seq<byte>, n: nat, q: seq<byte>, m: nat)
    requires IsBuffer(p) && IsBuffer(q)
    ensures ExtractSrc(p, n) == ExtractDst(q, m) <==> Alike(Parse(p, n), Reply(Parse(q, m)))
  {
    FlowTextIff(Parse(p, n), Reply(Parse(q, m)));
  }

  /** Both directions of a conversation carry the same key, whichever end sends first. */
  lemma ReplyHasSameKey(p: seq<byte>, n: nat, q: seq<byte>, m: nat)
    requires IsBuffer(p) && IsBuffer(q)
    requires Parse(q, m) == Reply(Parse(p, n))
    ensures ExtractSrc(p, n) == ExtractDst(q, m) && ExtractDst(p, n) == ExtractSrc(q, m)
  {
    assert Reply(Reply(Parse(p, n))) == Parse(p, n);
    BothEndsKeyIff(p, n, q, m);
    BothEndsKeyIff(q, m, p, n);
  }

  /** A packet from 192.168.1.7 to 10.0.0.2, its first port bytes 8080 and 443. */
  predicate IsExample(frame: seq<byte>) {
    && IsBuffer(frame)
    && frame[12] == 192 && frame[13] == 168 && frame[14] == 1 && frame[15] == 7
    && frame[16] == 10 && frame[17] == 0 && frame[18] == 0 && frame[19] == 2
    && frame[20] == 0x1f && frame[21] == 0x90 && frame[22] == 0x01 && frame[23] == 0xbb
  }

  lemma AddressesByExample()
    ensures AddrText(Addr(192, 168, 1, 7)) == "192.168.1.7" && AddrText(Addr(10, 0, 0, 2)) == "10.0.0.2"
  {
    assert Fmt(19) == "19" && Fmt(192) == "192" && Fmt(16) == "16" && Fmt(168) == "168";
  }

  /** The keys as the program prints them: with ports for TCP packets (protocol 6) from 24 bytes on, else without. */
  lemma KeysByExample(frame: seq<byte>, n: nat)
    requires IsExample(frame)
    ensures frame[9] == 6 && n >= 24 ==>
      ExtractSrc(frame, n) == "1f90:1bb:10.0.0.2:192.168.1.7" && ExtractDst(frame, n) == "1bb:1f90:192.168.1.7:10.0.0.2"
    ensures frame[9] != 6 || n < 24 ==>
      ExtractSrc(frame, n) == "10.0.0.2:192.168.1.7" && ExtractDst(frame, n) == "192.168.1.7:10.0.0.2"
  {
    AddressesByExample();
    PortsByExample();
    LayoutByExample();
    assert AddrAt(frame, 12) == Addr(192, 168, 1, 7) && AddrAt(frame, 16) == Addr(10, 0, 0, 2);
  }

  lemma PortsByExample()
    ensures HexByte(0x1f) + HexByte(0x90) == "1f90" && HexByte(0x01) + HexByte(0xbb) == "1bb"
  {
  }

  lemma LayoutByExample()
    ensures Key4("1f90", "1bb", "10.0.0.2", "192.168.1.7") == "1f90:1bb:10.0.0.2:192.168.1.7"
    ensures Key4("1bb", "1f90", "192.168.1.7", "10.0.0.2") == "1bb:1f90:192.168.1.7:10.0.0.2"
    ensures Key2("10.0.0.2", "192.168.1.7") == "10.0.0.2:192.168.1.7"
    ensures Key2("192.168.1.7", "10.0.0.2") == "192.168.1.7:10.0.0.2"
  {
  }

  /** The flows a TCP flow can be confused with. */
  function Readings(f: Flow): (r: set<Flow>)
    requires f.Tcp?
  {
    {f, f.(sport := Twin(f.sport)), f.(dport := Twin(f.dport)), f.(sport := Twin(f.sport), dport := Twin(f.dport))}
  }

  /** A flow shares f's key exactly when it is one of f's readings. */
  lemma SharersAreReadings(f: Flow, g: Flow)
    requires f.Tcp?
    ensures FlowText(g) == FlowText(f) <==> g in Readings(f)
  {
    FlowTextIff(f, g);
  }

  /** However many flows share one TCP key, they have the same addresses and there are at most four of them. */
  lemma AtMostFourShareAKey(flows: set<Flow>, f: Flow)
    requires f.Tcp?
    requires forall g :: g in flows ==> FlowText(g) == FlowText(f)
    ensures forall g :: g in flows ==> g.src == f.src && g.dst == f.dst
    ensures |flows| <= 4
  {
    forall g | g in flows
      ensures g in Readings(f)
    {
      SharersAreReadings(f, g);
    }
    ReadingsCard(f);
    SubsetCard(flows, Readings(f));
  }

  lemma ReadingsCard(f: Flow)
    requires f.Tcp?
    ensures |Readings(f)| <= 4
    ensures forall g :: g in Readings(f) ==> g.src == f.src && g.dst == f.dst
  {
    var a, b, c := f, f.(sport := Twin(f.sport)), f.(dport := Twin(f.dport));
    var d := f.(sport := Twin(f.sport), dport := Twin(f.dport));
    assert Readings(f) == {a} + {b} + {c} + {d};
  }
}
