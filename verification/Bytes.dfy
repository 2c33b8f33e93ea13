/** Bytes, optional values and the big-endian integers shared by the wire formats. */
module Bytes {
  newtype byte = x: int | 0 <= x < 256

  type Bytes = seq<byte>

  datatype Option<+T> = None | Some(value: T)

  const U16_END := 0x1_0000
  const U32_END := 0x1_0000_0000

  type u8 = x: int | 0 <= x < 256
  type u16 = x: int | 0 <= x < U16_END
  type u32 = x: int | 0 <= x < U32_END

  function Be16(x: u16): (b: Bytes)
    ensures |b| == 2
  {
    [(x / 256) as byte, (x % 256) as byte]
  }

  function FromBe16(b: Bytes): (x: u16)
    requires |b| == 2
  {
    b[0] as int * 256 + b[1] as int
  }

  function Be32(x: u32): (b: Bytes)
    ensures |b| == 4
  {
    Be16(x / U16_END) + Be16(x % U16_END)
  }

  function FromBe32(b: Bytes): (x: u32)
    requires |b| == 4
  {
    FromBe16(b[..2]) * U16_END + FromBe16(b[2..])
  }

  lemma Be16RoundTrip(x: u16, b: Bytes)
    requires |b| == 2
    ensures FromBe16(Be16(x)) == x
    ensures Be16(FromBe16(b)) == b
  {
  }

  lemma Be32RoundTrip(x: u32, b: Bytes)
    requires |b| == 4
    ensures FromBe32(Be32(x)) == x
    ensures Be32(FromBe32(b)) == b
  {
    var hi, lo := Be16(x / U16_END), Be16(x % U16_END);
    assert Be32(x)[..2] == hi && Be32(x)[2..] == lo;
    Be16RoundTrip(x / U16_END, b[..2]);
    Be16RoundTrip(x % U16_END, b[2..]);
    var y := FromBe32(b);
    assert y / U16_END == FromBe16(b[..2]) && y % U16_END == FromBe16(b[2..]);
    assert b == b[..2] + b[2..];
  }

  /** Octet strings of one length, compared from the first octet on. */
  predicate Precedes(a: Bytes, b: Bytes) {
    a != [] && b != [] && (a[0] < b[0] || (a[0] == b[0] && Precedes(a[1..], b[1..])))
  }

  /** The most significant octet comes first: octets are in the order of the numbers they stand for. */
  lemma Be16Order(x: u16, y: u16)
    ensures x < y <==> Precedes(Be16(x), Be16(y))
  {
    var a, b := Be16(x), Be16(y);
    assert a[1..] == [a[1]] && b[1..] == [b[1]] && a[1..][1..] == [] && b[1..][1..] == [];
    assert Precedes(a[1..], b[1..]) <==> a[1] < b[1];
  }

  lemma {:induction false} PrecedesParts(a: Bytes, b: Bytes, c: Bytes, d: Bytes)
    requires |a| == |c|
    ensures Precedes(a + b, c + d) <==> Precedes(a, c) || (a == c && Precedes(b, d))
  {
    if a == [] {
      assert a + b == b && c + d == d;
    } else {
      assert (a + b)[1..] == a[1..] + b && (c + d)[1..] == c[1..] + d;
      PrecedesParts(a[1..], b, c[1..], d);
      assert a == c <==> a[0] == c[0] && a[1..] == c[1..];
    }
  }

  lemma Be32Order(x: u32, y: u32)
    ensures x < y <==> Precedes(Be32(x), Be32(y))
  {
    var a, b, c, d := x / U16_END, x % U16_END, y / U16_END, y % U16_END;
    PrecedesParts(Be16(a), Be16(b), Be16(c), Be16(d));
    Be16Order(a, c);
    Be16Order(b, d);
    Be16RoundTrip(a, Be16(c));
    Be16RoundTrip(c, Be16(c));
  }

  /** Small numbers are in the last octet. */
  lemma SmallNumbers(b: byte)
    ensures FromBe16([0, b]) == b as int && Be16(b as int) == [0, b]
    ensures FromBe32([0, 0, 0, b]) == b as int && Be32(b as int) == [0, 0, 0, b]
  {
    assert [0, 0, 0, b][..2] == [0, 0] && [0, 0, 0, b][2..] == [0, b];
  }

  lemma Reassociate(a: Bytes, b: Bytes, c: Bytes)
    ensures a + (b + c) == (a + b) + c
  {
  }

  /** Concatenation of a list of byte strings. */
  function Flatten(parts: seq<Bytes>): (b: Bytes) {
    if parts == [] then [] else parts[0] + Flatten(parts[1..])
  }

  lemma {:induction false} FlattenAppend(xs: seq<Bytes>, ys: seq<Bytes>)
    ensures Flatten(xs + ys) == Flatten(xs) + Flatten(ys)
  {
    if xs == [] {
      assert xs + ys == ys;
    } else {
      assert (xs + ys)[1..] == xs[1..] + ys;
      FlattenAppend(xs[1..], ys);
      assert xs[0] + (Flatten(xs[1..]) + Flatten(ys)) == (xs[0] + Flatten(xs[1..])) + Flatten(ys);
    }
  }
}
