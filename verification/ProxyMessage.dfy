/** Version 2 of the PROXY protocol (section 2.2 of "The PROXY protocol, Versions 1 & 2"): what a message is,
    and what a reader makes of it. */
module ProxyMessage {
  import opened Common

  type Bytes = seq<Octet>

  const HEADER: nat := 16            // sizeof(ngx_proxy_protocol_header_t)
  const MAX_HEADER: nat := 52
  const TLV_HEADER: nat := 3
  const SSL_HEADER: nat := 5

  const PROXY: nat := 1
  const STREAM: nat := 1
  const INET: nat := 1
  const INET6: nat := 2

  const TLV_CRC32C: Octet := 3
  const TLV_SSL: Octet := 0x20

  const SIGNATURE: Bytes := [0x0d, 0x0a, 0x0d, 0x0a, 0, 0x0d, 0x0a, 0x51, 0x55, 0x49, 0x54, 0x0a]

  // ----- numbers, the high byte first -----

  function Be16(n: nat): (b: Bytes)
    ensures |b| == 2
  {
    [n / 256 % 256, n % 256]
  }

  function Value16(b: Bytes): nat
    requires |b| == 2
  {
    var h: nat, l: nat := b[0], b[1];
    h * 256 + l
  }

  function Be32(n: nat): (b: Bytes)
    ensures |b| == 4
  {
    Be16(n / 0x1_0000) + Be16(n)
  }

  function Value32(b: Bytes): nat
    requires |b| == 4
  {
    Value16(b[..2]) * 0x1_0000 + Value16(b[2..])
  }

  lemma Read16(n: nat)
    ensures Value16(Be16(n)) == n % 0x1_0000
  {
  }

  lemma Read32(n: nat)
    requires n < 0x1_0000_0000
    ensures Value32(Be32(n)) == n
  {
    Read16(n / 0x1_0000);
    Read16(n);
    assert Be32(n)[..2] == Be16(n / 0x1_0000) && Be32(n)[2..] == Be16(n);
  }

  // ----- addresses -----

  datatype Sockaddr = V4(addr: Bytes, port: nat) | V6(addr: Bytes, port: nat) | Other

  predicate IsSockaddr(a: Sockaddr) {
    match a
    case V4(addr, port) => |addr| == 4 && port < 0x1_0000
    case V6(addr, port) => |addr| == 16 && port < 0x1_0000
    case Other => true
  }

  const MAPPED: Bytes := [0, 0, 0, 0, 0, 0, 0, 0, 0, 0, 0xff, 0xff]

  predicate IsMapped(a: Sockaddr)
    requires IsSockaddr(a)
  {
    a.V6? && a.addr[..12] == MAPPED
  }

  function FamilyOf(a: Sockaddr): nat {
    match a
    case V4(_, _) => INET
    case V6(_, _) => INET6
    case Other => 0
  }

  /** The family of a message: IPv6 if one side has it, but IPv4 if both are mapped IPv4 addresses. */
  function Family(src: Sockaddr, dst: Sockaddr): nat
    requires IsSockaddr(src) && IsSockaddr(dst)
  {
    if src.Other? || dst.Other? then 0
    else if (src.V4? && dst.V4?) || (IsMapped(src) && IsMapped(dst)) then INET
    else INET6
  }

  /** An address in a family: mapped from IPv4, or reduced to it. */
  function AddrIn(a: Sockaddr, family: nat): Bytes
    requires IsSockaddr(a) && !a.Other?
  {
    if family == INET then if a.V4? then a.addr else a.addr[12..]
    else if a.V6? then a.addr else MAPPED + a.addr
  }

  function AddrSize(family: nat): nat {
    if family == INET then 4 else 16
  }

  lemma AddrFits(src: Sockaddr, dst: Sockaddr)
    requires IsSockaddr(src) && IsSockaddr(dst) && !src.Other? && !dst.Other?
    ensures var f := Family(src, dst); |AddrIn(src, f)| == |AddrIn(dst, f)| == AddrSize(f)
  {
  }

  /** Both addresses and both ports. */
  function Addresses(src: Sockaddr, dst: Sockaddr): Bytes
    requires IsSockaddr(src) && IsSockaddr(dst)
  {
    var f := Family(src, dst);
    if f == 0 then [] else AddrIn(src, f) + AddrIn(dst, f) + Be16(src.port) + Be16(dst.port)
  }

  // ----- values with type and length -----

  datatype Tlv = Tlv(kind: Octet, value: Bytes)

  function TlvBytes(t: Tlv): (b: Bytes)
    ensures |b| == TLV_HEADER + |t.value|
  {
    [t.kind] + Be16(|t.value|) + t.value
  }

  function TlvsBytes(ts: seq<Tlv>): Bytes {
    if ts == [] then [] else TlvsBytes(ts[..|ts| - 1]) + TlvBytes(ts[|ts| - 1])
  }

  /** What the SSL value holds: flags, the result of the verification, and more values. */
  function SslValue(client: Octet, verify: nat, subs: seq<Tlv>): Bytes {
    [client] + Be32(verify) + TlvsBytes(subs)
  }

  // ----- the message -----

  /** What is known of a connection. */
  datatype Request = Request(src: Sockaddr, dst: Sockaddr, transport: nat, tlvs: seq<Tlv>,
                             client: Octet, verify: nat, subs: seq<Tlv>)

  predicate IsRequest(q: Request) {
    IsSockaddr(q.src) && IsSockaddr(q.dst) && q.transport <= 2 && q.verify < 0x1_0000_0000
  }

  function AllTlvs(q: Request): seq<Tlv> {
    if q.client != 0 then q.tlvs + [Tlv(TLV_SSL, SslValue(q.client, q.verify, q.subs))] else q.tlvs
  }

  function Start(q: Request, len: nat): (b: Bytes)
    requires IsRequest(q)
    ensures |b| == HEADER + |Addresses(q.src, q.dst)|
  {
    var f := Family(q.src, q.dst);
    SIGNATURE + (if f == 0 then [0x20, 0] else [0x21, f * 16 + q.transport]) + Be16(len) + Addresses(q.src, q.dst)
  }

  function Size(q: Request): nat
    requires IsRequest(q)
  {
    HEADER + |Addresses(q.src, q.dst)| + |TlvsBytes(AllTlvs(q))| + TLV_HEADER + 4
  }

  /** The message with a zero checksum. */
  function Zeroed(q: Request): (b: Bytes)
    requires IsRequest(q)
    ensures |b| == Size(q)
  {
    Start(q, Size(q) - HEADER) + TlvsBytes(AllTlvs(q)) + [TLV_CRC32C] + Be16(4) + [0, 0, 0, 0]
  }

  function Message(q: Request, crc: Bytes -> nat): (b: Bytes)
    requires IsRequest(q)
    ensures |b| == Size(q)
  {
    Start(q, Size(q) - HEADER) + TlvsBytes(AllTlvs(q)) + [TLV_CRC32C] + Be16(4) + Be32(crc(Zeroed(q)))
  }

  // ----- reading -----

  datatype Peer = Peer(src: Bytes, dst: Bytes, srcPort: nat, dstPort: nat, tlvs: Bytes)

  datatype Outcome = Bad | Read(end: nat, peer: Option<Peer>)

  /** Addresses, ports, and what is behind them. */
  function PeerAt(b: Bytes, size: nat): Peer
    requires |b| >= 2 * size + 4
  {
    Peer(b[..size], b[size..2 * size], Value16(b[2 * size..2 * size + 2]), Value16(b[2 * size + 2..2 * size + 4]),
         b[2 * size + 4..])
  }

  /** What a reader makes of a message. */
  function Parsed(b: Bytes): Outcome
    requires |b| >= HEADER
  {
    var version, command := b[12] / 16, b[12] % 16;
    var len := Value16(b[14..16]);
    if version != 2 || |b| - HEADER < len then Bad
    else
      var family, transport := b[13] / 16, b[13] % 16;
      var body := b[HEADER..HEADER + len];
      if command != PROXY || transport != STREAM || (family != INET && family != INET6) then Read(HEADER + len, None)
      else if len < 2 * AddrSize(family) + 4 then Bad
      else Read(HEADER + len, Some(PeerAt(body, AddrSize(family))))
  }

  /** Whatever the bytes are, a message that is taken ends in them, and what comes behind does not matter. */
  lemma ReadsOneMessage(b: Bytes, rest: Bytes)
    requires |b| >= HEADER && Parsed(b).Read?
    ensures var end := Parsed(b).end;
      HEADER <= end <= |b| && end == HEADER + Value16(b[14..16]) && Parsed(b[..end] + rest) == Parsed(b)
  {
    hide Value16, PeerAt;
    var end := Parsed(b).end;
    var c := b[..end] + rest;
    assert c[14..16] == b[14..16] && c[HEADER..end] == b[HEADER..end];
  }

  lemma WriteBack(b: Bytes)
    requires |b| == 2
    ensures Be16(Value16(b)) == b
  {
  }

  /** Nothing of a message with addresses is lost: it is the addresses, the ports, and the values. */
  lemma NothingIsLost(b: Bytes)
    requires |b| >= HEADER && Parsed(b).Read? && Parsed(b).peer.Some?
    ensures var p := Parsed(b).peer.value;
      && |p.src| == |p.dst| == AddrSize(b[13] as nat / 16) && (b[13] as nat / 16 == INET || b[13] as nat / 16 == INET6)
      && b[HEADER..Parsed(b).end] == p.src + p.dst + Be16(p.srcPort) + Be16(p.dstPort) + p.tlvs
  {
    hide Value16, Be16;
    var body := b[HEADER..Parsed(b).end];
    PeerIsAll(body, AddrSize(b[13] / 16));
  }

  lemma PeerIsAll(b: Bytes, n: nat)
    requires |b| >= 2 * n + 4
    ensures var p := PeerAt(b, n); b == p.src + p.dst + Be16(p.srcPort) + Be16(p.dstPort) + p.tlvs
  {
    hide Value16, Be16;
    var s, t := b[2 * n..2 * n + 2], b[2 * n + 2..2 * n + 4];
    WriteBack(s);
    WriteBack(t);
    assert b == b[..n] + b[n..2 * n] + s + t + b[2 * n + 4..];
  }

  datatype Found = Value(v: Bytes) | Declined | Broken

  /** The first value of a type. */
  function Lookup(b: Bytes, kind: nat): Found
    decreases |b|
  {
    if b == [] then Declined
    else if |b| < TLV_HEADER then Broken
    else
      var len := Value16(b[1..3]);
      if |b| - TLV_HEADER < len then Broken
      else if b[0] as nat == kind then Value(b[3..3 + len])
      else Lookup(b[3 + len..], kind)
  }

  // ----- what was written is read -----

  /** The first value of a type in a list. */
  function FirstOf(ts: seq<Tlv>, kind: nat): Found {
    if ts == [] then Declined else if ts[0].kind as nat == kind then Value(ts[0].value) else FirstOf(ts[1..], kind)
  }

  lemma {:induction false} TlvsFirst(ts: seq<Tlv>)
    requires ts != []
    ensures TlvsBytes(ts) == TlvBytes(ts[0]) + TlvsBytes(ts[1..])
  {
    var n := |ts| - 1;
    if n > 0 {
      TlvsFirst(ts[..n]);
      assert ts[..n][1..] == ts[1..][..n - 1];
      hide TlvBytes;
      assert TlvsBytes(ts[1..]) == TlvsBytes(ts[1..][..n - 1]) + TlvBytes(ts[n]);
    }
  }

  lemma LookupStep(t: Tlv, rest: Bytes, kind: nat)
    requires |t.value| < 0x1_0000
    ensures Lookup(TlvBytes(t) + rest, kind) == if t.kind as nat == kind then Value(t.value) else Lookup(rest, kind)
  {
    var b, n := TlvBytes(t) + rest, |t.value|;
    Read16(n);
    assert b[0] == t.kind && b[1..3] == Be16(n) && b[3..3 + n] == t.value && b[3 + n..] == rest;
  }

  /** Looking a type up finds the first value of it. */
  lemma {:induction false} LookupFinds(ts: seq<Tlv>, kind: nat)
    requires forall i :: 0 <= i < |ts| ==> |ts[i].value| < 0x1_0000
    ensures Lookup(TlvsBytes(ts), kind) == FirstOf(ts, kind)
  {
    if ts != [] {
      TlvsFirst(ts);
      hide TlvsBytes, TlvBytes, Lookup;
      LookupStep(ts[0], TlvsBytes(ts[1..]), kind);
      LookupFinds(ts[1..], kind);
    } else {
      assert TlvsBytes(ts) == [];
    }
  }

  lemma {:induction false} ValuesFit(ts: seq<Tlv>, i: nat)
    requires i < |ts|
    ensures |ts[i].value| <= |TlvsBytes(ts)|
  {
    var n := |ts| - 1;
    if i < n {
      ValuesFit(ts[..n], i);
    }
  }

  /** All values of the message, the checksum last. */
  function Values(q: Request, crc: Bytes -> nat): seq<Tlv>
    requires IsRequest(q)
  {
    AllTlvs(q) + [Tlv(TLV_CRC32C, Be32(crc(Zeroed(q))))]
  }

  lemma MessageParts(q: Request, crc: Bytes -> nat)
    requires IsRequest(q)
    ensures Message(q, crc) == Start(q, Size(q) - HEADER) + TlvsBytes(Values(q, crc))
  {
    hide Start, Zeroed;
    var t := Tlv(TLV_CRC32C, Be32(crc(Zeroed(q))));
    assert Values(q, crc)[..|AllTlvs(q)|] == AllTlvs(q);
    assert TlvBytes(t) == [TLV_CRC32C] + Be16(4) + Be32(crc(Zeroed(q)));
  }

  /** What the reader should make of the message. */
  function Expected(q: Request, crc: Bytes -> nat): Outcome
    requires IsRequest(q)
  {
    var f := Family(q.src, q.dst);
    Read(Size(q), if f == 0 || q.transport != STREAM then None
                  else Some(Peer(AddrIn(q.src, f), AddrIn(q.dst, f), q.src.port, q.dst.port,
                    TlvsBytes(Values(q, crc)))))
  }

  // What stands between.
  lemma Between(a: Bytes, b: Bytes, c: Bytes, s: Bytes)
    requires s == a + b + c
    ensures |s| == |a| + |b| + |c| && s[|a|..|a| + |b|] == b && s[|a| + |b|..] == c
  {
  }

  lemma StartParts(sign: Bytes, kind: Bytes, len: Bytes, a: Bytes, more: Bytes)
    requires |sign| == 12 && |kind| == |len| == 2
    ensures var b := sign + kind + len + a + more;
      b[12] == kind[0] && b[13] == kind[1] && b[14..16] == len && b[16..] == a + more
  {
    var b := sign + kind + len + a + more;
    assert b == sign + kind + (len + a + more);
    Between(sign, kind, len + a + more, b);
    assert b[12] == b[12..14][0] && b[13] == b[12..14][1];
    assert b == (sign + kind) + len + (a + more);
    Between(sign + kind, len, a + more, b);
  }

  lemma StartReads(q: Request, len: nat, more: Bytes)
    requires IsRequest(q)
    ensures var b := Start(q, len) + more; var f := Family(q.src, q.dst);
      && b[12] / 16 == 2 && b[12] % 16 == (if f == 0 then 0 else 1)
      && b[13] / 16 == f && b[13] % 16 == (if f == 0 then 0 else q.transport)
      && b[14..16] == Be16(len) && b[HEADER..] == Addresses(q.src, q.dst) + more
  {
    var f := Family(q.src, q.dst);
    var b := Start(q, len) + more;
    var kind: Bytes := if f == 0 then [0x20, 0] else [0x21, f * 16 + q.transport];
    hide Addresses, Family, Be16;
    StartParts(SIGNATURE, kind, Be16(len), Addresses(q.src, q.dst), more);
  }

  lemma PeerParts(src: Bytes, dst: Bytes, p: Bytes, q: Bytes, more: Bytes)
    requires |src| == |dst| && |p| == |q| == 2
    ensures PeerAt(src + dst + p + q + more, |src|) == Peer(src, dst, Value16(p), Value16(q), more)
  {
    hide Value16;
    var b, n := src + dst + p + q + more, |src|;
    assert b == src + dst + (p + q + more) && b[..n] == src;
    Between(src, dst, p + q + more, b);
    assert b == (src + dst) + p + (q + more);
    Between(src + dst, p, q + more, b);
    assert b == (src + dst + p) + q + more;
    Between(src + dst + p, q, more, b);
  }

  lemma PeerReads(q: Request, more: Bytes)
    requires IsRequest(q) && Family(q.src, q.dst) != 0
    ensures var f := Family(q.src, q.dst);
      && |Addresses(q.src, q.dst) + more| >= 2 * AddrSize(f) + 4
      && PeerAt(Addresses(q.src, q.dst) + more, AddrSize(f))
        == Peer(AddrIn(q.src, f), AddrIn(q.dst, f), q.src.port, q.dst.port, more)
  {
    var f := Family(q.src, q.dst);
    var n := AddrSize(f);
    AddrFits(q.src, q.dst);
    var src, dst := AddrIn(q.src, f), AddrIn(q.dst, f);
    hide AddrIn, Family, Be16, Value16;
    Read16(q.src.port);
    Read16(q.dst.port);
    PeerParts(src, dst, Be16(q.src.port), Be16(q.dst.port), more);
  }

  /** The reader takes exactly the message off the stream, with the addresses in their family, the ports and
      all values, if and only if the length fits its field. */
  lemma MessageReads(q: Request, crc: Bytes -> nat, rest: Bytes)
    requires IsRequest(q)
    ensures Parsed(Message(q, crc) + rest) == Expected(q, crc) <==> Size(q) - HEADER < 0x1_0000
  {
    hide Start, TlvsBytes, Addresses, Values, PeerAt, AddrIn;
    var len := Size(q) - HEADER;
    var vs := TlvsBytes(Values(q, crc));
    var b := Message(q, crc) + rest;
    MessageParts(q, crc);
    assert b == Start(q, len) + (vs + rest);
    StartReads(q, len, vs + rest);
    Read16(len);
    if len < 0x1_0000 {
      var body := b[HEADER..HEADER + len];
      assert |Addresses(q.src, q.dst) + vs| == len;
      assert body == (Addresses(q.src, q.dst) + (vs + rest))[..len] == Addresses(q.src, q.dst) + vs;
      if Family(q.src, q.dst) != 0 {
        PeerReads(q, vs);
      }
    }
  }

  // ----- in bytes -----

  function Byte2(b: Bytes, i: nat): nat
    requires i + 1 < |b|
  {
    var h: nat, l: nat := b[i], b[i + 1];
    h * 256 + l
  }

  lemma TwoBytes(n: nat)
    ensures Byte2(Be16(n), 0) == n % 65536
  {
  }

  lemma BigEndian(n: nat)
    ensures Be16(n) == [n / 256 % 256, n % 256]
    ensures Be32(n) == [n / 0x100_0000 % 256, n / 0x1_0000 % 256, n / 256 % 256, n % 256]
  {
    var m := n / 0x1_0000;
    assert n == m * 0x1_0000 + n % 0x1_0000;
    assert m / 256 == n / 0x100_0000;
  }

  /** The bytes of a message about a TCP connection: signature, version 2 and command PROXY, the family in the high
      and STREAM in the low half of the next byte, the length, the addresses, and the ports. */
  lemma TcpBytes(q: Request, crc: Bytes -> nat)
    requires IsRequest(q) && q.transport == 1
    requires (q.src.V4? && q.dst.V4?) || (q.src.V6? && q.dst.V6? && q.src.addr[..12] != MAPPED)
    ensures var b := Message(q, crc); var n := if q.src.V4? then 4 else 16;
      && |b| >= 16 + 2 * n + 4
      && b[..12] == [0x0d, 0x0a, 0x0d, 0x0a, 0, 0x0d, 0x0a, 0x51, 0x55, 0x49, 0x54, 0x0a]
      && b[12] == 0x21 && b[13] == (if n == 4 then 0x11 else 0x21) && Byte2(b, 14) == (|b| - 16) % 65536
      && b[16..16 + n] == q.src.addr && b[16 + n..16 + 2 * n] == q.dst.addr
      && Byte2(b, 16 + 2 * n) == q.src.port && Byte2(b, 18 + 2 * n) == q.dst.port
  {
    var tail := TcpMessage(q, crc);
    var b, len := Message(q, crc), Size(q) - HEADER;
    hide Message, Size, IsMapped;
    TcpShape(b, if q.src.V4? then 0x11 else 0x21, len, q.src.addr, q.dst.addr, q.src.port, q.dst.port, tail);
  }

  lemma TcpShape(b: Bytes, kind: Octet, len: nat, src: Bytes, dst: Bytes, sp: nat, dp: nat, tail: Bytes)
    requires b == SIGNATURE + [0x21, kind] + Be16(len) + (src + dst + Be16(sp) + Be16(dp)) + tail
    requires |src| == |dst| && sp < 65536 && dp < 65536
    ensures var n := |src|;
      && |b| >= 20 + 2 * n && b[..12] == SIGNATURE && b[12] == 0x21 && b[13] == kind && Byte2(b, 14) == len % 65536
      && b[16..16 + n] == src && b[16 + n..16 + 2 * n] == dst
      && Byte2(b, 16 + 2 * n) == sp && Byte2(b, 18 + 2 * n) == dp
  {
    hide Be16;
    TwoBytes(len);
    TwoBytes(sp);
    TwoBytes(dp);
    TcpParts(b, [0x21, kind], Be16(len), src, dst, Be16(sp), Be16(dp), tail);
  }

  lemma TcpParts(b: Bytes, kind: Bytes, len: Bytes, src: Bytes, dst: Bytes, sp: Bytes, dp: Bytes, tail: Bytes)
    requires |kind| == |len| == |sp| == |dp| == 2 && |src| == |dst|
    requires b == SIGNATURE + kind + len + (src + dst + sp + dp) + tail
    ensures var n := |src|;
      && |b| >= 20 + 2 * n && b[..12] == SIGNATURE && b[12] == kind[0] && b[13] == kind[1]
      && b[14] == len[0] && b[15] == len[1] && b[16..16 + n] == src && b[16 + n..16 + 2 * n] == dst
      && b[16 + 2 * n] == sp[0] && b[17 + 2 * n] == sp[1] && b[18 + 2 * n] == dp[0] && b[19 + 2 * n] == dp[1]
  {
    hide PeerAt, Value16;
    StartParts(SIGNATURE, kind, len, src + dst + sp + dp, tail);
    assert b[14] == b[14..16][0] && b[15] == b[14..16][1];
    TailParts(b[16..], src, dst, sp, dp, tail);
    InTail(b, |src|, 2 * |src|, sp, dp);
  }

  lemma TailParts(t: Bytes, src: Bytes, dst: Bytes, sp: Bytes, dp: Bytes, tail: Bytes)
    requires t == src + dst + sp + dp + tail && |src| == |dst| && |sp| == |dp| == 2
    ensures var n := |src|;
      t[..n] == src && t[n..2 * n] == dst && t[2 * n..2 * n + 2] == sp && t[2 * n + 2..2 * n + 4] == dp
  {
    assert t == src + dst + (sp + dp + tail);
    Between(src, dst, sp + dp + tail, t);
    assert t == (src + dst) + sp + (dp + tail);
    Between(src + dst, sp, dp + tail, t);
    assert t == (src + dst + sp) + dp + tail;
    Between(src + dst + sp, dp, tail, t);
  }

  /** An address of one family and one of the other: the shorter is written as a mapped one. */
  lemma PromotedAddresses(q: Request)
    requires IsRequest(q) && q.src.V4? && q.dst.V6?
    ensures Addresses(q.src, q.dst) == [0, 0, 0, 0, 0, 0, 0, 0, 0, 0, 0xff, 0xff] + q.src.addr + q.dst.addr
      + Be16(q.src.port) + Be16(q.dst.port)
    ensures Start(q, 0)[13] as nat == 0x20 + q.transport
  {
  }

  /** Two mapped addresses are written as the short ones that they stand for. */
  lemma DemotedAddresses(q: Request)
    requires IsRequest(q) && q.src.V6? && q.dst.V6?
    requires q.src.addr[..12] == q.dst.addr[..12] == [0, 0, 0, 0, 0, 0, 0, 0, 0, 0, 0xff, 0xff]
    ensures Addresses(q.src, q.dst) == q.src.addr[12..] + q.dst.addr[12..] + Be16(q.src.port) + Be16(q.dst.port)
    ensures Start(q, 0)[13] as nat == 0x10 + q.transport
  {
  }

  lemma TcpMessage(q: Request, crc: Bytes -> nat) returns (tail: Bytes)
    requires IsRequest(q) && q.transport == 1
    requires (q.src.V4? && q.dst.V4?) || (q.src.V6? && q.dst.V6? && q.src.addr[..12] != MAPPED)
    ensures Message(q, crc) == SIGNATURE + [0x21, if q.src.V4? then 0x11 else 0x21] + Be16(Size(q) - HEADER)
      + (q.src.addr + q.dst.addr + Be16(q.src.port) + Be16(q.dst.port)) + tail
  {
    tail := TlvsBytes(Values(q, crc));
    MessageParts(q, crc);
    hide TlvsBytes, Values, Be16, Message;
    assert AddrIn(q.src, Family(q.src, q.dst)) == q.src.addr && AddrIn(q.dst, Family(q.src, q.dst)) == q.dst.addr;
  }

  lemma Slice(b: Bytes, i: nat, j: nat, k: nat, l: nat)
    requires i <= j <= |b| && k <= l <= j - i
    ensures b[i..j][k..l] == b[i + k..i + l]
    ensures l == j - i ==> b[i..j][k..] == b[i + k..j]
  {
    var s, t := b[i..j][k..l], b[i + k..i + l];
    forall m | 0 <= m < l - k
      ensures s[m] == t[m]
    {
      assert s[m] == b[i..j][k + m] == b[i + (k + m)];
    }
    assert |s| == |t|;
  }

  // Places behind the header.
  lemma InTail(b: Bytes, n: nat, m: nat, sp: Bytes, dp: Bytes)
    requires |b| >= 16 + m + 4 && m == 2 * n && |sp| == |dp| == 2
    requires b[16..][m..m + 2] == sp && b[16..][m + 2..m + 4] == dp
    ensures b[16 + m] == sp[0] && b[17 + m] == sp[1] && b[18 + m] == dp[0] && b[19 + m] == dp[1]
    ensures b[16..16 + n] == b[16..][..n] && b[16 + n..16 + m] == b[16..][n..m]
  {
    var t := b[16..];
    assert sp[0] == t[m..m + 2][0] && sp[1] == t[m..m + 2][1];
    assert dp[0] == t[m + 2..m + 4][0] && dp[1] == t[m + 2..m + 4][1];
    assert t == b[16..|b|];
    Slice(b, 16, |b|, 0, n);
    Slice(b, 16, |b|, n, m);
  }

  /** The last value has type 3 and four bytes, the checksum. */
  lemma CrcBytes(q: Request, crc: Bytes -> nat)
    requires IsRequest(q)
    ensures var b := Message(q, crc); var n := |b|; var c := crc(Zeroed(q));
      n >= 7 && b[n - 7..] == [3, 0, 4, c / 0x100_0000 % 256, c / 0x1_0000 % 256, c / 256 % 256, c % 256]
  {
    BigEndian(crc(Zeroed(q)));
    BigEndian(4);
    var a, c := Start(q, Size(q) - HEADER) + TlvsBytes(AllTlvs(q)), Be32(crc(Zeroed(q)));
    assert Message(q, crc) == a + ([3, 0, 4] + c);
    hide Start, TlvsBytes, Be32, Message;
  }

  /** The value of type 0x20 is the client byte, the result of the verification, and nested values. */
  lemma SslBytes(client: Octet, verify: nat)
    ensures TlvBytes(Tlv(TLV_SSL, SslValue(client, verify, []))) == [0x20, 0, 5, client,
      verify / 0x100_0000 % 256, verify / 0x1_0000 % 256, verify / 256 % 256, verify % 256]
  {
    BigEndian(verify);
    BigEndian(5);
  }

  /** What a reader makes of a message that says version 2 and PROXY: addresses and ports of TCP over IPv4 (0x11) and
      IPv6 (0x21), nothing of other families, and no message if it is too short for what it says. */
  lemma ReadsTcp(b: Bytes)
    requires |b| >= 16 && b[12] == 0x21
    ensures var len := Byte2(b, 14); var end := 16 + len;
      if |b| < end then Parsed(b) == Bad
      else if b[13] == 0x11 then
        Parsed(b) == if len < 12 then Bad
          else Read(end, Some(Peer(b[16..20], b[20..24], Byte2(b, 24), Byte2(b, 26), b[28..end])))
      else if b[13] == 0x21 then
        Parsed(b) == if len < 36 then Bad
          else Read(end, Some(Peer(b[16..32], b[32..48], Byte2(b, 48), Byte2(b, 50), b[52..end])))
      else Parsed(b) == Read(end, None)
  {
    var len := Value16(b[14..16]);
    assert len == Byte2(b, 14);
    if |b| >= 16 + len {
      if b[13] == 0x11 && len >= 12 {
        PeerInBytes(b, 16 + len, 4);
      }
      if b[13] == 0x21 && len >= 36 {
        PeerInBytes(b, 16 + len, 16);
      }
    }
  }

  lemma PeerInBytes(b: Bytes, end: nat, n: nat)
    requires 16 + 2 * n + 4 <= end <= |b|
    ensures PeerAt(b[16..end], n) == Peer(b[16..16 + n], b[16 + n..16 + 2 * n], Byte2(b, 16 + 2 * n),
      Byte2(b, 18 + 2 * n), b[20 + 2 * n..end])
  {
    var t := b[16..end];
    var m := 2 * n;
    Slice(b, 16, end, m, m + 2);
    Slice(b, 16, end, m + 2, m + 4);
    Slice(b, 16, end, 0, n);
    Slice(b, 16, end, n, m);
    Slice(b, 16, end, m + 4, end - 16);
  }

  /** A connection of an unknown family with one value, for which the length is 65536: it is written as 0. */
  lemma LengthExample(value: Bytes, crc: Bytes -> nat, rest: Bytes)
    requires |value| == 0x1_0000 - 2 * TLV_HEADER - 4
    ensures var q := Request(Other, Other, STREAM, [Tlv(1, value)], 0, 0, []);
      && Size(q) - HEADER == 0x1_0000
      && Parsed(Message(q, crc) + rest) == Read(HEADER, None) != Expected(q, crc)
  {
    var q := Request(Other, Other, STREAM, [Tlv(1, value)], 0, 0, []);
    assert |TlvsBytes(AllTlvs(q))| == TLV_HEADER + |value| by { OneTlv(Tlv(1, value)); }
    hide TlvsBytes, Start, Values, Be16, Value16;
    var vs := TlvsBytes(Values(q, crc));
    MessageParts(q, crc);
    assert Message(q, crc) + rest == Start(q, 0x1_0000) + (vs + rest);
    StartReads(q, 0x1_0000, vs + rest);
    Read16(0x1_0000);
  }

  lemma OneTlv(t: Tlv)
    ensures TlvsBytes([t]) == TlvBytes(t)
  {
    assert TlvsBytes([t][..0]) == [];
  }

  /** The checksum in the message is that of the message with zeros in its place. */
  lemma ChecksumIsRight(q: Request, crc: Bytes -> nat)
    requires IsRequest(q) && crc(Zeroed(q)) < 0x1_0000_0000
    ensures var m := Message(q, crc); var n := |m| - 4;
      && m[..n] + [0, 0, 0, 0] == Zeroed(q)
      && Value32(m[n..]) == crc(m[..n] + [0, 0, 0, 0])
  {
    hide Start, TlvsBytes;
    var m := Message(q, crc);
    var n := |m| - 4;
    assert m[..n] + [0, 0, 0, 0] == Zeroed(q);
    assert m[n..] == Be32(crc(Zeroed(q)));
    Read32(crc(Zeroed(q)));
  }

  /** From the values the reader kept, a lookup gives the first of each type, also of those inside the SSL value. */
  lemma LookupsAnswer(q: Request, crc: Bytes -> nat, kind: nat)
    requires IsRequest(q) && Size(q) - HEADER < 0x1_0000
    ensures Lookup(TlvsBytes(Values(q, crc)), kind) == FirstOf(Values(q, crc), kind)
    ensures q.client != 0 ==> var ssl := SslValue(q.client, q.verify, q.subs);
      ssl[0] == q.client && Value32(ssl[1..5]) == q.verify && Lookup(ssl[SSL_HEADER..], kind) == FirstOf(q.subs, kind)
  {
    hide TlvsBytes, Lookup, FirstOf, Start;
    MessageParts(q, crc);
    var vs := Values(q, crc);
    forall i | 0 <= i < |vs|
      ensures |vs[i].value| < 0x1_0000
    {
      ValuesFit(vs, i);
    }
    LookupFinds(vs, kind);
    if q.client != 0 {
      var ssl := SslValue(q.client, q.verify, q.subs);
      Read32(q.verify);
      assert ssl[1..5] == Be32(q.verify) && ssl[SSL_HEADER..] == TlvsBytes(q.subs);
      var k := |q.tlvs|;
      assert vs[k].value == ssl;
      forall i | 0 <= i < |q.subs|
        ensures |q.subs[i].value| < 0x1_0000
      {
        ValuesFit(q.subs, i);
      }
      LookupFinds(q.subs, kind);
    }
  }
}
