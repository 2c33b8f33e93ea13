/** Payload codec of a tunnel session: np_base/src/proxy/crypto.rs and common.rs. */
module Codec {
  import opened Bytes

  datatype Method = NoCipher | Aes128 | Xor

  /** Library code that npipe only calls: LZ4, the AES wrapper (which draws a nonce) and base64. */
  datatype Lib = Lib(
    compress: Bytes -> Bytes,
    decompress: Bytes -> Option<Bytes>,
    seal: (Bytes, Bytes, Bytes) -> Option<Bytes>,
    open: (Bytes, Bytes) -> Option<Bytes>,
    base64: Bytes -> string,
    unbase64: string -> Option<Bytes>)

  /** The libraries are inverse pairs wherever the forward direction succeeds. */
  ghost predicate Sound(lib: Lib) {
    && (forall x :: lib.decompress(lib.compress(x)) == Some(x))
    && (forall k, n, x :: lib.seal(k, n, x).Some? ==> lib.open(k, lib.seal(k, n, x).value) == Some(x))
    && (forall x :: lib.unbase64(lib.base64(x)) == Some(x))
  }

  /** The immutable part of SessionCommonInfo. */
  datatype Config = Config(isCompressed: bool, cipher: Method, key: Bytes)

  function MethodName(m: Method): (s: string) {
    match m
    case NoCipher => "None"
    case Aes128 => "Aes128"
    case Xor => "Xor"
  }

  function GetMethod(s: string): (m: Method) {
    if s == "Aes128" then Aes128
    else if s == "None" then NoCipher
    else if s == "Xor" then Xor
    else NoCipher
  }

  /** Bitwise exclusive or of the low n bits. */
  function XorBits(a: nat, b: nat, n: nat): (c: nat)
    ensures c < Pow2(n)
  {
    if n == 0 then 0
    else (if a % 2 == b % 2 then 0 else 1) + 2 * XorBits(a / 2, b / 2, n - 1)
  }

  function Pow2(n: nat): (p: nat)
    ensures p > 0
  {
    if n == 0 then 1 else 2 * Pow2(n - 1)
  }

  lemma {:induction false} XorBitsInvolution(a: nat, b: nat, n: nat)
    requires a < Pow2(n)
    ensures XorBits(XorBits(a, b, n), b, n) == a
  {
    if n > 0 {
      var c := XorBits(a, b, n);
      assert c / 2 == XorBits(a / 2, b / 2, n - 1);
      XorBitsInvolution(a / 2, b / 2, n - 1);
    }
  }

  /** Bit i of a number. */
  function Bit(a: nat, i: nat): (b: nat) { if i == 0 then a % 2 else Bit(a / 2, i - 1) }

  /** A bit of the result is set exactly if the two bits differ. */
  lemma {:induction false} XorBitsAt(a: nat, b: nat, n: nat, i: nat)
    requires i < n
    ensures Bit(XorBits(a, b, n), i) == if Bit(a, i) == Bit(b, i) then 0 else 1
  {
    var c := XorBits(a, b, n);
    assert c / 2 == XorBits(a / 2, b / 2, n - 1);
    if i > 0 {
      XorBitsAt(a / 2, b / 2, n - 1, i - 1);
    }
  }

  lemma {:induction false} XorBitsZero(a: nat, b: nat, n: nat)
    requires a < Pow2(n) && b < Pow2(n)
    ensures XorBits(a, b, n) == 0 <==> a == b
    ensures XorBits(a, 0, n) == a
  {
    if n > 0 {
      XorBitsZero(a / 2, b / 2, n - 1);
    }
  }

  function XorByte(a: byte, b: byte): (c: byte) {
    assert Pow2(8) == 256 by { assert Pow2(4) == 16; }
    XorBits(a as nat, b as nat, 8) as byte
  }

  lemma XorByteInvolution(a: byte, b: byte)
    ensures XorByte(XorByte(a, b), b) == a
  {
    assert Pow2(8) == 256 by { assert Pow2(4) == 16; }
    XorBitsInvolution(a as nat, b as nat, 8);
  }

  /** Bit i of an octet. */
  function BitOf(a: byte, i: nat): (b: nat) { Bit(a as nat, i) }

  /** Two octets differ in exactly the bits of a third. */
  ghost predicate DifferBy(a: byte, b: byte, key: byte) {
    forall i: nat | i < 8 :: BitOf(key, i) == if BitOf(a, i) == BitOf(b, i) then 0 else 1
  }

  /** Exclusive or of octets: the result has exactly the bits in which they differ. */
  lemma XorByteAt(a: byte, b: byte)
    ensures DifferBy(a, b, XorByte(a, b)) && DifferBy(XorByte(a, b), a, b)
    ensures XorByte(a, b) == 0 <==> a == b
    ensures XorByte(a, 0) == a
  {
    assert Pow2(8) == 256 by { assert Pow2(4) == 16; }
    forall i: nat | i < 8 ensures BitOf(XorByte(a, b), i) == if BitOf(a, i) == BitOf(b, i) then 0 else 1 {
      XorBitsAt(a as nat, b as nat, 8, i);
    }
    forall i: nat | i < 8 ensures BitOf(a, i) < 2 && BitOf(b, i) < 2 {
      BitIsOneOrZero(a as nat, i);
      BitIsOneOrZero(b as nat, i);
    }
    XorBitsZero(a as nat, b as nat, 8);
  }

  lemma {:induction false} BitIsOneOrZero(a: nat, i: nat)
    ensures Bit(a, i) < 2
  {
    if i > 0 {
      BitIsOneOrZero(a / 2, i - 1);
    }
  }

  /** Data zipped with the key repeated forever; an empty key yields no pairs and changes nothing. */
  function XorCycle(data: Bytes, key: Bytes): (r: Bytes)
    ensures |r| == |data|
  {
    if key == [] then data
    else seq(|data|, i requires 0 <= i < |data| => XorByte(data[i], key[i % |key|]))
  }

  lemma XorCycleAt(data: Bytes, key: Bytes)
    ensures key == [] ==> XorCycle(data, key) == data
    ensures key != [] ==> forall i | 0 <= i < |data| :: DifferBy(XorCycle(data, key)[i], data[i], key[i % |key|])
  {
    if key != [] {
      forall i | 0 <= i < |data| ensures DifferBy(XorCycle(data, key)[i], data[i], key[i % |key|]) {
        XorByteAt(data[i], key[i % |key|]);
      }
    }
  }

  lemma XorCycleInvolution(data: Bytes, key: Bytes)
    ensures XorCycle(XorCycle(data, key), key) == data
  {
    if key != [] {
      forall i | 0 <= i < |data|
        ensures XorCycle(XorCycle(data, key), key)[i] == data[i]
      {
        XorByteInvolution(data[i], key[i % |key|]);
      }
    }
  }

  /** The in-place loop of xor_encrypt_decrypt; the cycling iterator is the index j. */
  method XorInPlace(data: array<byte>, key: Bytes)
    modifies data
    ensures data[..] == XorCycle(old(data[..]), key)
  {
    if key == [] {
      return;
    }
    var j := 0;
    for i := 0 to data.Length
      invariant j == i % |key|
      invariant forall k :: 0 <= k < i ==> data[k] == XorByte(old(data[k]), key[k % |key|])
      invariant forall k :: i <= k < data.Length ==> data[k] == old(data[k])
    {
      data[i] := XorByte(data[i], key[j]);
      CyclicSuccessor(i, |key|);
      j := if j + 1 == |key| then 0 else j + 1;
    }
  }

  lemma CyclicSuccessor(i: nat, n: nat)
    requires n > 0
    ensures (i + 1) % n == if i % n + 1 == n then 0 else i % n + 1
  {
    var q, r := i / n, i % n;
    if r + 1 == n {
      assert n * (q + 1) == n * q + n;
      RemainderUnique(n, (i + 1) / n, (i + 1) % n, q + 1, 0);
    } else {
      RemainderUnique(n, (i + 1) / n, (i + 1) % n, q, r + 1);
    }
  }

  lemma RemainderUnique(n: nat, q: int, r: nat, q': int, r': nat)
    requires r < n && r' < n && n * q + r == n * q' + r'
    ensures r == r'
  {
    var k := q - q';
    assert n * k == r' - r by { assert n * q == n * q' + n * k; }
    MultipleIsLarge(n, k);
    MultipleIsLarge(n, -k);
  }

  lemma MultipleIsLarge(n: nat, k: int)
    ensures k >= 1 ==> n * k >= n
  {
    if k >= 1 {
      assert n * k == n * (k - 1) + n;
      assert n * (k - 1) >= 0;
    }
  }

  function Encrypt(lib: Lib, cfg: Config, nonce: Bytes, data: Bytes): (r: Option<Bytes>) {
    match cfg.cipher
    case NoCipher => Some(data)
    case Aes128 => lib.seal(cfg.key, nonce, data)
    case Xor => if cfg.key == [] then Some(data) else Some(XorCycle(data, cfg.key))
  }

  function Decrypt(lib: Lib, cfg: Config, data: Bytes): (r: Option<Bytes>) {
    match cfg.cipher
    case NoCipher => Some(data)
    case Aes128 => lib.open(cfg.key, data)
    case Xor => if cfg.key == [] then Some(data) else Some(XorCycle(data, cfg.key))
  }

  /** The transforming part of encode_data_and_limiting; None is its error return. */
  function Encode(lib: Lib, cfg: Config, nonce: Bytes, data: Bytes): (r: Option<Bytes>) {
    var squeezed := if cfg.isCompressed then lib.compress(data) else data;
    if cfg.cipher != NoCipher then Encrypt(lib, cfg, nonce, squeezed) else Some(squeezed)
  }

  function Decode(lib: Lib, cfg: Config, data: Bytes): (r: Option<Bytes>) {
    var plain := if cfg.cipher != NoCipher then Decrypt(lib, cfg, data) else Some(data);
    if plain.None? then None
    else if cfg.isCompressed then lib.decompress(plain.value)
    else plain
  }

  /**
   * What goes out on the wire: the data, compressed if so configured, and then sealed by the library, or changed
   * in exactly the bits of the key repeated for ever, or left alone, as the method says.
   */
  lemma EncodedIs(lib: Lib, cfg: Config, nonce: Bytes, data: Bytes)
    ensures var plain, r := if cfg.isCompressed then lib.compress(data) else data, Encode(lib, cfg, nonce, data);
      match cfg.cipher
      case NoCipher => r == Some(plain)
      case Aes128 => r == lib.seal(cfg.key, nonce, plain)
      case Xor =>
        && r.Some? && |r.value| == |plain|
        && (cfg.key == [] ==> r.value == plain)
        && (cfg.key != [] ==> forall i | 0 <= i < |plain| :: DifferBy(r.value[i], plain[i], cfg.key[i % |cfg.key|]))
  {
    var plain := if cfg.isCompressed then lib.compress(data) else data;
    XorCycleAt(plain, cfg.key);
  }

  /** What comes in is refused exactly if the library cannot open or decompress it. */
  lemma DecodesIff(lib: Lib, cfg: Config, data: Bytes)
    ensures var unsealed := if cfg.cipher == Aes128 then lib.open(cfg.key, data)
                          else if cfg.cipher == Xor then Some(XorCycle(data, cfg.key)) else Some(data);
      Decode(lib, cfg, data) ==
        if unsealed.Some? && cfg.isCompressed then lib.decompress(unsealed.value) else unsealed
  {
  }

  /** The names that travel in I2oConnect; any other name means no cipher. */
  lemma MethodNames(s: string)
    ensures GetMethod(s) == Aes128 <==> s == "Aes128"
    ensures GetMethod(s) == Xor <==> s == "Xor"
    ensures GetMethod(MethodName(NoCipher)) == NoCipher && MethodName(NoCipher) == "None"
  {
  }

  /** Every chunk one side manages to encode decodes, under the same configuration, to the original. */
  lemma DecodeInvertsEncode(lib: Lib, cfg: Config, nonce: Bytes, data: Bytes)
    requires Sound(lib)
    requires Encode(lib, cfg, nonce, data).Some?
    ensures Decode(lib, cfg, Encode(lib, cfg, nonce, data).value) == Some(data)
  {
    var squeezed := if cfg.isCompressed then lib.compress(data) else data;
    XorCycleInvolution(squeezed, cfg.key);
    assert lib.decompress(lib.compress(data)) == Some(data);
  }

  /** The codec fields an I2oConnect message carries. */
  datatype Offer = Offer(isCompressed: bool, methodName: string, keyText: string)

  function OfferOf(lib: Lib, cfg: Config): (o: Offer) {
    Offer(cfg.isCompressed, MethodName(cfg.cipher), lib.base64(cfg.key))
  }

  /** The configuration the outlet builds from an offer; None when the key is not base64. */
  function Accept(lib: Lib, o: Offer): (r: Option<Config>) {
    match lib.unbase64(o.keyText)
    case None => None
    case Some(key) => Some(Config(o.isCompressed, GetMethod(o.methodName), key))
  }

  /** The outlet ends up with exactly the inlet's configuration. */
  lemma AcceptInvertsOffer(lib: Lib, cfg: Config)
    requires Sound(lib)
    ensures Accept(lib, OfferOf(lib, cfg)) == Some(cfg)
  {
    assert lib.unbase64(lib.base64(cfg.key)) == Some(cfg.key);
  }

  /** What stands in an offer, and what an outlet makes of any offer. */
  lemma OfferedFields(lib: Lib, cfg: Config, o: Offer)
    ensures var mine := OfferOf(lib, cfg);
      && mine.isCompressed == cfg.isCompressed && mine.keyText == lib.base64(cfg.key)
      && mine.methodName == (match cfg.cipher case Aes128 => "Aes128" case Xor => "Xor" case NoCipher => "None")
    ensures Accept(lib, o).None? <==> lib.unbase64(o.keyText).None?
    ensures Accept(lib, o).Some? ==>
      var theirs := Accept(lib, o).value;
      && theirs.isCompressed == o.isCompressed && Some(theirs.key) == lib.unbase64(o.keyText)
      && (theirs.cipher == Aes128 <==> o.methodName == "Aes128") && (theirs.cipher == Xor <==> o.methodName == "Xor")
  {
  }

  /** The payload codec as a session uses it, so that the session protocol can be studied for any codec. */
  datatype Coder = Coder(
    encode: (Config, Bytes, Bytes) -> Option<Bytes>,
    decode: (Config, Bytes) -> Option<Bytes>,
    offer: Config -> Offer,
    accept: Offer -> Option<Config>)

  /** Decoding inverts encoding, and the two sides agree on the configuration. */
  ghost predicate Faithful(c: Coder) {
    && (forall cfg, n, x :: c.encode(cfg, n, x).Some? ==> c.decode(cfg, c.encode(cfg, n, x).value) == Some(x))
    && (forall cfg :: c.accept(c.offer(cfg)) == Some(cfg))
  }

  function NpipeCoder(lib: Lib): (c: Coder) {
    Coder((cfg, n, x) => Encode(lib, cfg, n, x), (cfg, y) => Decode(lib, cfg, y),
          cfg => OfferOf(lib, cfg), o => Accept(lib, o))
  }

  /** An outlet session built from the inlet's connect message decodes every chunk the inlet encoded. */
  lemma NpipeCoderIsFaithful(lib: Lib)
    requires Sound(lib)
    ensures Faithful(NpipeCoder(lib))
    ensures forall cfg, n, x :: NpipeCoder(lib).encode(cfg, n, x) == Encode(lib, cfg, n, x)
    ensures forall cfg, y :: NpipeCoder(lib).decode(cfg, y) == Decode(lib, cfg, y)
    ensures forall cfg :: NpipeCoder(lib).offer(cfg) == OfferOf(lib, cfg)
  {
    var c := NpipeCoder(lib);
    forall cfg, n, x | c.encode(cfg, n, x).Some?
      ensures c.decode(cfg, c.encode(cfg, n, x).value) == Some(x)
    {
      DecodeInvertsEncode(lib, cfg, n, x);
    }
    forall cfg ensures c.accept(c.offer(cfg)) == Some(cfg) {
      AcceptInvertsOffer(lib, cfg);
    }
  }
}
