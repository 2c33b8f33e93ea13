/** SOCKS5 addresses on the wire: np_base/src/proxy/socks5/target_addr.rs, section 5 of RFC 1928. */
module TargetAddr {
  import opened Bytes

  const IPV4: byte := 1
  const DOMAIN: byte := 3
  const IPV6: byte := 4

  datatype Addr =
    | V4(ip: Bytes, port: u16)
    | V6(ip: Bytes, port: u16)
    | Domain(name: Bytes, port: u16)

  /** Octet counts are those of the address family; a domain is a string, hence valid UTF-8. */
  predicate WellFormed(isUtf8: Bytes -> bool, a: Addr) {
    match a
    case V4(ip, _) => |ip| == 4
    case V6(ip, _) => |ip| == 16
    case Domain(name, _) => isUtf8(name)
  }

  /** to_be_bytes; None when the domain does not fit its length octet. */
  function ToBeBytes(a: Addr): (r: Option<Bytes>) {
    match a
    case V4(ip, port) => Some([IPV4] + ip + Be16(port))
    case V6(ip, port) => Some([IPV6] + ip + Be16(port))
    case Domain(name, port) =>
      if |name| > 255 then None
      else Some([DOMAIN, |name| as byte] + name + Be16(port))
  }

  datatype ReadResult =
    | Parsed(addr: Addr, len: nat)
    | Incomplete
    | Invalid
    | Panics

  function PortAt(data: Bytes, n: nat): (p: u16)
    requires 2 <= n <= |data|
  {
    FromBe16(data[n - 2..n])
  }

  /** read_address: an incomplete address is no error, an unknown type or a domain that is not UTF-8 is. */
  function ReadAddress(isUtf8: Bytes -> bool, data: Bytes, atyp: byte): (r: ReadResult) {
    if atyp == IPV4 then
      if |data| < 6 then Incomplete else Parsed(V4(data[..4], PortAt(data, 6)), 6)
    else if atyp == IPV6 then
      if |data| < 18 then Incomplete else Parsed(V6(data[..16], PortAt(data, 18)), 18)
    else if atyp == DOMAIN then
      if data == [] then Panics else
      var end := data[0] as nat + 1;
      if |data| < end + 2 then Incomplete
      else if !isUtf8(data[1..end]) then Invalid
      else Parsed(Domain(data[1..end], PortAt(data, end + 2)), end + 2)
    else Invalid
  }

  /** Where the parts of an encoded domain address are. */
  lemma DomainLayout(len: byte, name: Bytes, port: Bytes, suffix: Bytes)
    requires |port| == 2
    ensures var data, n := ([DOMAIN, len] + name + port)[1..] + suffix, |name| + 3;
      && data == [len] + (name + port + suffix)
      && data[1..|name| + 1] == name
      && data[n - 2..n] == port
  {
    var data := [len] + (name + port + suffix);
    assert ([DOMAIN, len] + name + port)[1..] == [len] + name + port;
    assert [len] + name + port + suffix == data;
    assert data[1..] == name + port + suffix;
    assert data[1..|name| + 1] == data[1..][..|name|] == name;
    assert data[|name| + 1..|name| + 3] == port;
  }

  /** Reading what was written, whatever follows it, gives the address back and consumes exactly it. */
  lemma ReadInvertsWrite(isUtf8: Bytes -> bool, a: Addr, suffix: Bytes)
    requires WellFormed(isUtf8, a) && ToBeBytes(a).Some?
    ensures var b := ToBeBytes(a).value; ReadAddress(isUtf8, b[1..] + suffix, b[0]) == Parsed(a, |b| - 1)
  {
    var b := ToBeBytes(a).value;
    var data, n := b[1..] + suffix, |b| - 1;
    Be16RoundTrip(a.port, Be16(a.port));
    match a
    case V4(ip, port) =>
      assert data[..4] == ip && data[4..6] == Be16(port);
    case V6(ip, port) =>
      assert data[..16] == ip && data[16..18] == Be16(port);
    case Domain(name, port) =>
      DomainLayout(|name| as byte, name, Be16(port), suffix);
  }

  /** No proper, non-empty prefix of an address is taken for an address. */
  lemma PrefixIsIncomplete(isUtf8: Bytes -> bool, a: Addr, k: nat)
    requires WellFormed(isUtf8, a) && ToBeBytes(a).Some? && 0 < k < |ToBeBytes(a).value| - 1
    ensures var b := ToBeBytes(a).value; ReadAddress(isUtf8, b[1..][..k], b[0]) == Incomplete
  {
    if a.Domain? {
      var b := ToBeBytes(a).value;
      assert b[1..][..k][0] as nat == |a.name|;
    }
  }

  /** The bytes of an address, cut where its fields are. */
  lemma CutFixed(atyp: byte, data: Bytes, n: nat)
    requires 2 <= n <= |data|
    ensures [atyp] + data[..n] == [atyp] + data[..n - 2] + data[n - 2..n]
  {
  }

  lemma CutDomain(data: Bytes, n: nat)
    requires 3 <= n <= |data|
    ensures [DOMAIN] + data[..n] == [DOMAIN, data[0]] + data[1..n - 2] + data[n - 2..n]
  {
    var a, b := [DOMAIN] + data[..n], [DOMAIN, data[0]] + data[1..n - 2] + data[n - 2..n];
    forall i | 0 <= i < |a| ensures a[i] == b[i] {
      assert a[i] == if i == 0 then DOMAIN else data[i - 1];
    }
  }

  /** An address that was read writes back to exactly the bytes it was read from. */
  lemma WriteInvertsRead(isUtf8: Bytes -> bool, data: Bytes, atyp: byte)
    requires ReadAddress(isUtf8, data, atyp).Parsed?
    ensures var r := ReadAddress(isUtf8, data, atyp);
      && 4 <= r.len + 1 && r.len <= |data| && WellFormed(isUtf8, r.addr)
      && ToBeBytes(r.addr) == Some([atyp] + data[..r.len])
  {
    var r := ReadAddress(isUtf8, data, atyp);
    var n := r.len;
    Be16RoundTrip(0, data[n - 2..n]);
    if atyp == DOMAIN {
      CutDomain(data, n);
      assert |r.addr.name| as byte == data[0];
    } else {
      CutFixed(atyp, data, n);
    }
  }

  /** Octets as they stand in section 5 of RFC 1928: types 1, 3 and 4, and a port with its high octet first. */
  lemma ParsedLayout(isUtf8: Bytes -> bool, data: Bytes, atyp: byte)
    ensures var r := ReadAddress(isUtf8, data, atyp);
      r.Parsed? ==>
        && r.len >= 2 && r.len <= |data|
        && r.addr.port == 256 * data[r.len - 2] as int + data[r.len - 1] as int
        && match r.addr
           case V4(ip, _) => atyp == 1 && r.len == 6 && ip == data[..4]
           case V6(ip, _) => atyp == 4 && r.len == 18 && ip == data[..16]
           case Domain(name, _) => atyp == 3 && r.len == data[0] as nat + 3 && name == data[1..r.len - 2]
  {
  }

  /** A domain is too short as long as its length octet says so. */
  predicate Short(data: Bytes, atyp: byte) {
    if atyp == 1 then |data| < 6 else if atyp == 4 then |data| < 18
    else atyp == 3 && data != [] && |data| < data[0] as nat + 3
  }

  /** What becomes of every buffer and type. */
  lemma ReadsIff(isUtf8: Bytes -> bool, data: Bytes, atyp: byte)
    ensures var r := ReadAddress(isUtf8, data, atyp);
      && (r.Incomplete? <==> Short(data, atyp))
      && (r.Panics? <==> atyp == 3 && data == [])
      && (r.Invalid? <==> atyp !in {1, 3, 4}
                          || (atyp == 3 && data != [] && !Short(data, 3) && !isUtf8(data[1..data[0] as nat + 1])))
  {
  }
}
