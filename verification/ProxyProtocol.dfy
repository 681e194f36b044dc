/** Writing and reading messages of the PROXY protocol, version 2. What OpenSSL says of a connection is part of
    the request, and the checksum is a function. */
module ProxyProtocol {
  import opened Common
  import opened ProxyMessage

  // ngx_cpymem
  method PutAll(buf: array<Octet>, at: nat, s: Bytes) returns (end: nat)
    requires at + |s| <= buf.Length
    modifies buf
    ensures end == at + |s| && buf[..end] == old(buf[..at]) + s
  {
    var i := 0;
    while i < |s|
      invariant 0 <= i <= |s| && buf[..at + i] == old(buf[..at]) + s[..i]
    {
      buf[at + i] := s[i];
      assert buf[..at + i + 1] == buf[..at + i] + [s[i]];
      i := i + 1;
    }
    end := at + |s|;
    assert s[..|s|] == s;
  }

  /** The message without its length so far: `done` is behind the addresses. */
  ghost predicate Begun(b: Bytes, q: Request, done: Bytes)
    requires IsRequest(q)
  {
    && |b| >= HEADER && b[..14] == Start(q, 0)[..14] && b[HEADER..] == Addresses(q.src, q.dst) + done
  }

  lemma BegunMore(b: Bytes, q: Request, done: Bytes, more: Bytes)
    requires IsRequest(q) && Begun(b, q, done)
    ensures Begun(b + more, q, done + more)
  {
    hide Start, Addresses;
    assert (b + more)[HEADER..] == b[HEADER..] + more;
    assert Addresses(q.src, q.dst) + done + more == Addresses(q.src, q.dst) + (done + more);
  }

  /** With its length the start is complete. */
  lemma BegunWithLength(b: Bytes, q: Request, done: Bytes, len: nat)
    requires IsRequest(q) && Begun(b, q, done)
    ensures b[14 := len / 256 % 256][15 := len % 256] == Start(q, len) + done
  {
    hide Addresses;
    var w := b[14 := len / 256 % 256][15 := len % 256];
    assert w == b[..14] + Be16(len) + b[HEADER..];
    assert Start(q, len) == Start(q, 0)[..14] + Be16(len) + Addresses(q.src, q.dst);
  }

  /** ngx_proxy_protocol_v2_write_header: everything before the values, but for the length. */
  method WriteHeader(buf: array<Octet>, q: Request) returns (p: int)
    requires IsRequest(q)
    modifies buf
    ensures p < 0 <==> buf.Length < MAX_HEADER
    ensures p >= 0 ==> p == HEADER + |Addresses(q.src, q.dst)| <= buf.Length && Begun(buf[..p], q, [])
  {
    if buf.Length < MAX_HEADER {
      return -1;
    }
    var at := PutAll(buf, 0, SIGNATURE);
    assert buf[..12] == SIGNATURE;
    var srcAf, dstAf := FamilyOf(q.src), FamilyOf(q.dst);
    if srcAf == 0 || dstAf == 0 {
      buf[12], buf[13] := 0x20, 0;
      assert buf[..HEADER][..12] == SIGNATURE;
      return HEADER;
    }
    var family := if srcAf > dstAf then srcAf else dstAf;
    if family == INET6 && q.src.V6? && q.dst.V6? && IsMapped(q.src) && IsMapped(q.dst) {
      family := INET;
    }
    assert family == Family(q.src, q.dst);
    buf[12], buf[13] := 0x21, family * 16 + q.transport;
    ghost var head := buf[..HEADER];
    assert head[..12] == SIGNATURE;
    p := WriteAddresses(buf, q, family);
    assert buf[..p] == head + Addresses(q.src, q.dst);
    assert Addresses(q.src, q.dst) + [] == Addresses(q.src, q.dst);
  }

  method WriteAddresses(buf: array<Octet>, q: Request, family: nat) returns (at: nat)
    requires IsRequest(q) && !q.src.Other? && !q.dst.Other? && family == Family(q.src, q.dst)
    requires buf.Length >= MAX_HEADER
    modifies buf
    ensures at == HEADER + |Addresses(q.src, q.dst)| <= buf.Length
    ensures buf[..at] == old(buf[..HEADER]) + Addresses(q.src, q.dst)
  {
    hide AddrIn;
    AddrFits(q.src, q.dst);
    ghost var head := buf[..HEADER];
    at := WriteAddr(buf, HEADER, q.src, family);
    at := WriteAddr(buf, at, q.dst, family);
    at := PutAll(buf, at, Be16(q.src.port));
    at := PutAll(buf, at, Be16(q.dst.port));
    assert buf[..at] == head + (AddrIn(q.src, family) + AddrIn(q.dst, family) + Be16(q.src.port) + Be16(q.dst.port));
  }

  // ngx_proxy_protocol_v2_write_ipv4 and ngx_proxy_protocol_v2_write_ipv6: the address
  method WriteAddr(buf: array<Octet>, at: nat, a: Sockaddr, family: nat) returns (end: nat)
    requires IsSockaddr(a) && !a.Other? && (family == INET && a.V6? ==> IsMapped(a))
    requires at + AddrSize(family) <= buf.Length
    modifies buf
    ensures end == at + AddrSize(family) && buf[..end] == old(buf[..at]) + AddrIn(a, family)
  {
    if family == INET {
      if a.V4? {
        end := PutAll(buf, at, a.addr);
      } else {
        end := PutAll(buf, at, a.addr[12..]);
      }
    } else if a.V6? {
      end := PutAll(buf, at, a.addr);
    } else {
      end := PutAll(buf, at, MAPPED);
      end := PutAll(buf, end, a.addr);
      assert buf[..end] == old(buf[..at]) + (MAPPED + a.addr);
    }
  }

  /** ngx_proxy_protocol_v2_write_tlv */
  method WriteTlv(buf: array<Octet>, p: nat, t: Tlv) returns (end: int)
    requires p <= buf.Length
    modifies buf
    ensures end < 0 <==> buf.Length - p < |TlvBytes(t)|
    ensures end < 0 ==> buf[..] == old(buf[..])
    ensures end >= 0 ==> end == p + |TlvBytes(t)| && buf[..end] == old(buf[..p]) + TlvBytes(t)
  {
    if buf.Length - p < TLV_HEADER + |t.value| {
      return -1;
    }
    var at := PutAll(buf, p, [t.kind] + Be16(|t.value|));
    at := PutAll(buf, at, t.value);
    assert buf[..at] == old(buf[..p]) + ([t.kind] + Be16(|t.value|) + t.value);
    end := at;
  }

  method WriteTlvs(buf: array<Octet>, p: nat, ts: seq<Tlv>) returns (end: int)
    requires p <= buf.Length
    modifies buf
    ensures end < 0 <==> buf.Length - p < |TlvsBytes(ts)|
    ensures end >= 0 ==> end == p + |TlvsBytes(ts)| && buf[..end] == old(buf[..p]) + TlvsBytes(ts)
  {
    hide TlvBytes;
    var at := p;
    var i := 0;
    assert ts[..0] == [];
    while i < |ts|
      invariant i <= |ts| && at == p + |TlvsBytes(ts[..i])| <= buf.Length
      invariant buf[..at] == old(buf[..p]) + TlvsBytes(ts[..i])
    {
      assert ts[..i + 1][..i] == ts[..i];
      end := WriteTlv(buf, at, ts[i]);
      if end < 0 {
        TlvsGrow(ts, i + 1);
        return;
      }
      at := end;
      i := i + 1;
    }
    assert ts[..|ts|] == ts;
    end := at;
  }

  lemma {:induction false} TlvsGrow(ts: seq<Tlv>, i: nat)
    requires i <= |ts|
    ensures |TlvsBytes(ts[..i])| <= |TlvsBytes(ts)|
  {
    if i < |ts| {
      TlvsGrow(ts[..|ts| - 1], i);
      assert ts[..|ts| - 1][..i] == ts[..i];
    } else {
      assert ts[..i] == ts;
    }
  }

  /** ngx_proxy_protocol_v2_write_ssl: the values inside come first, then type and length in front. */
  method WriteSsl(buf: array<Octet>, p: nat, q: Request) returns (end: int)
    requires p <= buf.Length && IsRequest(q)
    modifies buf
    ensures var t := Tlv(TLV_SSL, SslValue(q.client, q.verify, q.subs));
      && (end < 0 <==> buf.Length - p < |TlvBytes(t)|)
      && (end >= 0 ==> end == p + |TlvBytes(t)| && buf[..end] == old(buf[..p]) + TlvBytes(t))
  {
    hide TlvsBytes;
    if buf.Length - p < TLV_HEADER + SSL_HEADER {
      return -1;
    }
    var at := PutAll(buf, p + TLV_HEADER, [q.client] + Be32(q.verify));
    assert buf[..p] == buf[..p + TLV_HEADER][..p] == old(buf[..p]);
    ghost var b := buf[..at];
    assert b[..p] == old(buf[..p]) && b[p + TLV_HEADER..] == [q.client] + Be32(q.verify);
    end := WriteTlvs(buf, at, q.subs);
    if end < 0 {
      return;
    }
    ghost var value := SslValue(q.client, q.verify, q.subs);
    ghost var w := buf[..end];
    assert w == b + TlvsBytes(q.subs);
    assert w[p + TLV_HEADER..] == b[p + TLV_HEADER..] + TlvsBytes(q.subs) == value;
    PutHeader(buf, p, end);
    assert w[..p] == b[..p];
  }

  // The type and the length of the nested values
  method PutHeader(buf: array<Octet>, p: nat, end: nat)
    requires p + TLV_HEADER <= end <= buf.Length
    modifies buf
    ensures buf[..end] ==
      old(buf[..end])[..p] + ([TLV_SSL] + Be16(end - p - TLV_HEADER) + old(buf[..end])[p + TLV_HEADER..])
  {
    var len := end - p - TLV_HEADER;
    buf[p] := TLV_SSL;
    buf[p + 1] := len / 256 % 256;
    buf[p + 2] := len % 256;
  }

  /** ngx_proxy_protocol_v2_write: it fails exactly if the buffer is smaller than the message or than the
      largest header; otherwise the message is there. */
  method V2Write(buf: array<Octet>, q: Request, crc: Bytes -> nat) returns (end: int)
    requires IsRequest(q)
    modifies buf
    ensures end < 0 <==> buf.Length < MAX_HEADER || buf.Length < Size(q)
    ensures end >= 0 ==> end == Size(q) && buf[..end] == Message(q, crc)
  {
    hide TlvsBytes, TlvBytes, Start, Addresses, Begun;
    var p := WriteHeader(buf, q);
    if p < 0 {
      return -1;
    }
    ghost var all := TlvsBytes(AllTlvs(q));
    OneTlvMore(q);
    ghost var b := buf[..p];
    p := WriteTlvs(buf, p, q.tlvs);
    if p < 0 {
      return -1;
    }
    BegunMore(b, q, [], TlvsBytes(q.tlvs));
    b := buf[..p];
    if q.client != 0 {
      p := WriteSsl(buf, p, q);
      if p < 0 {
        return -1;
      }
      BegunMore(b, q, [] + TlvsBytes(q.tlvs), TlvBytes(Tlv(TLV_SSL, SslValue(q.client, q.verify, q.subs))));
    }
    assert Begun(buf[..p], q, all);
    ghost var c := buf[..p];
    // ngx_proxy_protocol_v2_set_len
    var len := p + TLV_HEADER + 4 - HEADER;
    buf[14] := len / 256 % 256;
    buf[15] := len % 256;
    BegunSize(c, q, all);
    BegunWithLength(c, q, all, len);
    assert buf[..p] == Start(q, len) + all;
    end := WriteCrc(buf, p, q, crc);
  }

  lemma BegunSize(b: Bytes, q: Request, done: Bytes)
    requires IsRequest(q) && Begun(b, q, done)
    ensures |b| == HEADER + |Addresses(q.src, q.dst)| + |done|
  {
  }

  lemma OneTlvMore(q: Request)
    ensures TlvsBytes(AllTlvs(q)) ==
      if q.client != 0 then [] + TlvsBytes(q.tlvs) + TlvBytes(Tlv(TLV_SSL, SslValue(q.client, q.verify, q.subs)))
      else [] + TlvsBytes(q.tlvs)
  {
    var t := Tlv(TLV_SSL, SslValue(q.client, q.verify, q.subs));
    assert (q.tlvs + [t])[..|q.tlvs|] == q.tlvs;
    assert [] + TlvsBytes(q.tlvs) == TlvsBytes(q.tlvs);
  }

  // ngx_proxy_protocol_v2_write_crc32c
  method WriteCrc(buf: array<Octet>, p: nat, q: Request, crc: Bytes -> nat) returns (end: int)
    requires IsRequest(q) && p <= buf.Length && p + TLV_HEADER + 4 == Size(q)
    requires buf[..p] == Start(q, Size(q) - HEADER) + TlvsBytes(AllTlvs(q))
    modifies buf
    ensures end < 0 <==> buf.Length < Size(q)
    ensures end >= 0 ==> end == Size(q) && buf[..end] == Message(q, crc)
  {
    hide TlvsBytes, Start;
    if buf.Length - p < TLV_HEADER + 4 {
      return -1;
    }
    ghost var b := buf[..p];
    var at := PutAll(buf, p, [TLV_CRC32C] + Be16(4) + [0, 0, 0, 0]);
    assert buf[..at] == b + [TLV_CRC32C] + Be16(4) + [0, 0, 0, 0] == Zeroed(q);
    var sum := crc(buf[..at]);
    assert buf[..p + TLV_HEADER] == buf[..at][..p + TLV_HEADER] == b + [TLV_CRC32C] + Be16(4);
    at := PutAll(buf, p + TLV_HEADER, Be32(sum));
    end := at;
  }

  // ----- reading -----

  /** ngx_proxy_protocol_v2_read */
  method V2Read(buf: Bytes) returns (r: Outcome)
    requires |buf| >= HEADER
    ensures r == Parsed(buf) && (r.Read? ==> HEADER <= r.end <= |buf|)
  {
    if buf[12] / 16 != 2 {
      return Bad;
    }
    var len := Value16(buf[14..16]);
    if |buf| - HEADER < len {
      return Bad;
    }
    var end := HEADER + len;
    if buf[12] % 16 != PROXY {
      return Read(end, None);
    }
    if buf[13] % 16 != STREAM {
      return Read(end, None);
    }
    var family := buf[13] / 16;
    if family != INET && family != INET6 {
      return Read(end, None);
    }
    var size := AddrSize(family);
    if len < 2 * size + 4 {
      return Bad;
    }
    var p: nat := HEADER;
    var src := buf[p..p + size];
    var dst := buf[p + size..p + 2 * size];
    p := p + 2 * size;
    var srcPort, dstPort := Value16(buf[p..p + 2]), Value16(buf[p + 2..p + 4]);
    p := p + 4;
    Slice(buf, HEADER, end, 0, size);
    Slice(buf, HEADER, end, size, 2 * size);
    Slice(buf, HEADER, end, 2 * size, 2 * size + 2);
    Slice(buf, HEADER, end, 2 * size + 2, 2 * size + 4);
    Slice(buf, HEADER, end, 2 * size + 4, len);
    r := Read(end, Some(Peer(src, dst, srcPort, dstPort, buf[p..end])));
  }

  /** ngx_proxy_protocol_lookup_tlv */
  method LookupTlv(tlvs: Bytes, kind: nat) returns (r: Found)
    ensures r == Lookup(tlvs, kind)
  {
    var p: nat, n: nat := 0, |tlvs|;
    assert tlvs[0..] == tlvs;
    while n > 0
      invariant p + n == |tlvs| && Lookup(tlvs[p..], kind) == Lookup(tlvs, kind)
      decreases n
    {
      ghost var rest := tlvs[p..];
      if n < TLV_HEADER {
        return Broken;
      }
      var len := Value16(tlvs[p + 1..p + 3]);
      assert tlvs[p + 1..p + 3] == rest[1..3];
      p, n := p + TLV_HEADER, n - TLV_HEADER;
      if n < len {
        return Broken;
      }
      if tlvs[p - TLV_HEADER] as nat == kind {
        assert tlvs[p..p + len] == rest[3..3 + len];
        return Value(tlvs[p..p + len]);
      }
      assert tlvs[p + len..] == rest[3 + len..];
      p, n := p + len, n - len;
    }
    assert tlvs[p..] == [];
    return Declined;
  }
}
