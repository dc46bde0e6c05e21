/** FNV-1a with 64 bits of state, fed the way Rust's `Hash for str` feeds a hasher: the UTF-8
    bytes of the string and then one 0xFF byte.  The prime and the offset basis are those of
    section 2 of draft-eastlake-fnv.  The state is a natural number below 2^64 and
    multiplication wraps. */
module Fnv {
  const MODULUS: nat := 0x1_0000_0000_0000_0000
  const OFFSET_BASIS: nat := 0xcbf2_9ce4_8422_2325
  const PRIME: nat := 0x100_0000_01b3
  // PRIME * PRIME_INVERSE == 1 + PRIME_QUOTIENT * MODULUS
  const PRIME_INVERSE: nat := 0xce96_5057_aff6_957b
  const PRIME_QUOTIENT: nat := 887285111055

  type Byte = b: int | 0 <= b < 0x100
  type State = h: int | 0 <= h < MODULUS

  function Utf8Char(c: char): seq<Byte> {
    var n := c as int;
    if n < 0x80 then [n]
    else if n < 0x800 then [0xC0 + n / 0x40, 0x80 + n % 0x40]
    else if n < 0x1_0000 then [0xE0 + n / 0x1000, 0x80 + n / 0x40 % 0x40, 0x80 + n % 0x40]
    else [0xF0 + n / 0x4_0000, 0x80 + n / 0x1000 % 0x40, 0x80 + n / 0x40 % 0x40, 0x80 + n % 0x40]
  }

  function Utf8(s: string): seq<Byte> {
    if s == [] then [] else Utf8Char(s[0]) + Utf8(s[1..])
  }

  /** Exclusive or of the low `bits` bits of x and y. */
  function Xor(x: nat, y: nat, bits: nat): nat
    decreases bits, x, y
  {
    if bits == 0 then 0 else 2 * Xor(x / 2, y / 2, bits - 1) + (x + y) % 2
  }

  lemma XorHalves(x: nat, y: nat, bits: nat)
    requires bits > 0
    ensures Xor(x, y, bits) / 2 == Xor(x / 2, y / 2, bits - 1) && Xor(x, y, bits) % 2 == (x + y) % 2
  {
  }

  lemma {:induction false} XorBound(x: nat, y: nat, bits: nat)
    ensures Xor(x, y, bits) < Pow2(bits)
    decreases bits
  {
    if bits != 0 {
      XorBound(x / 2, y / 2, bits - 1);
    }
  }

  lemma SameHalves(a: nat, b: nat)
    requires a / 2 == b / 2 && a % 2 == b % 2
    ensures a == b
  {
  }

  lemma ParityUndo(x: nat, y: nat, r: nat)
    requires r % 2 == (x + y) % 2
    ensures (r + y) % 2 == x % 2
  {
  }

  lemma HalfBelow(x: nat, bits: nat)
    requires bits > 0 && x < Pow2(bits)
    ensures x / 2 < Pow2(bits - 1)
  {
  }

  lemma {:induction false} XorUndo(x: nat, y: nat, bits: nat)
    requires x < Pow2(bits)
    ensures Xor(Xor(x, y, bits), y, bits) == x
    decreases bits
  {
    if bits != 0 {
      HalfBelow(x, bits);
      XorUndo(x / 2, y / 2, bits - 1);
      XorUndoStep(x, y, bits);
    }
  }

  lemma XorUndoStep(x: nat, y: nat, bits: nat)
    requires bits > 0
    requires Xor(Xor(x / 2, y / 2, bits - 1), y / 2, bits - 1) == x / 2
    ensures Xor(Xor(x, y, bits), y, bits) == x
  {
    var r := Xor(x, y, bits);
    XorHalves(x, y, bits);
    XorHalves(r, y, bits);
    ParityUndo(x, y, r);
    SameHalves(Xor(r, y, bits), x);
  }

  function Pow2(n: nat): nat {
    if n == 0 then 1 else 2 * Pow2(n - 1)
  }

  /** The byte is mixed into the low eight bits. */
  function Mix(h: State, b: Byte): State {
    Join(h / 0x100, XorByte(h % 0x100, b))
  }

  function Join(high: nat, low: Byte): (r: State)
    requires high < MODULUS / 0x100
    ensures r / 0x100 == high && r % 0x100 == low
  {
    high * 0x100 + low
  }

  function XorByte(x: Byte, b: Byte): Byte {
    XorByteUndo(x, b);
    Xor(x, b, 8)
  }

  lemma XorByteUndo(x: Byte, b: Byte)
    ensures Xor(x, b, 8) < 0x100
    ensures Xor(Xor(x, b, 8), b, 8) == x
  {
    assert Pow2(8) == 0x100;
    XorBound(x, b, 8);
    XorUndo(x, b, 8);
  }

  /** One FNV-1a step: xor the byte in, then multiply by the prime, wrapping. */
  function Feed(h: State, b: Byte): State {
    Mix(h, b) * PRIME % MODULUS
  }

  function FeedAll(h: State, bytes: seq<Byte>): State
    decreases |bytes|
  {
    if bytes == [] then h else FeedAll(Feed(h, bytes[0]), bytes[1..])
  }

  function FeedString(h: State, s: string): State {
    Feed(FeedAll(h, Utf8(s)), 0xFF)
  }

  /** compute_weight: the replica id and then the EPA key. */
  function Weight(replica: string, key: string): State {
    FeedString(FeedString(OFFSET_BASIS, replica), key)
  }

  // ---- every step is a bijection of the state ----

  lemma MixInjective(h: State, g: State, b: Byte)
    requires Mix(h, b) == Mix(g, b)
    ensures h == g
  {
    XorByteUndo(h % 0x100, b);
    XorByteUndo(g % 0x100, b);
    assert XorByte(h % 0x100, b) == Mix(h, b) % 0x100 == XorByte(g % 0x100, b);
    assert h / 0x100 == g / 0x100;
  }

  lemma RemainderIs(a: int, m: State, t: int)
    requires a == m + MODULUS * t
    ensures a % MODULUS == m
  {
  }

  lemma MultiplyUndo(m: State)
    ensures (m * PRIME % MODULUS) * PRIME_INVERSE % MODULUS == m
  {
    var q, r := m * PRIME / MODULUS, m * PRIME % MODULUS;
    RemainderIs(r * PRIME_INVERSE, m, m * PRIME_QUOTIENT - q * PRIME_INVERSE);
  }

  lemma FeedInjective(h: State, g: State, b: Byte)
    ensures Feed(h, b) == Feed(g, b) <==> h == g
  {
    if Feed(h, b) == Feed(g, b) {
      MultiplyUndo(Mix(h, b));
      MultiplyUndo(Mix(g, b));
      MixInjective(h, g, b);
    }
  }

  lemma {:induction false} FeedAllInjective(h: State, g: State, bytes: seq<Byte>)
    ensures FeedAll(h, bytes) == FeedAll(g, bytes) <==> h == g
    decreases |bytes|
  {
    if bytes != [] {
      FeedInjective(h, g, bytes[0]);
      FeedAllInjective(Feed(h, bytes[0]), Feed(g, bytes[0]), bytes[1..]);
    }
  }

  lemma FeedStringInjective(h: State, g: State, s: string)
    ensures FeedString(h, s) == FeedString(g, s) <==> h == g
  {
    FeedAllInjective(h, g, Utf8(s));
    FeedInjective(FeedAll(h, Utf8(s)), FeedAll(g, Utf8(s)), 0xFF);
  }

  /** Two replicas tie on one EPA exactly when they tie on every EPA. */
  lemma TiesIgnoreTheKey(a: string, b: string, key: string, other: string)
    ensures Weight(a, key) == Weight(b, key) <==> Weight(a, other) == Weight(b, other)
  {
    var h, g := FeedString(OFFSET_BASIS, a), FeedString(OFFSET_BASIS, b);
    FeedStringInjective(h, g, key);
    FeedStringInjective(h, g, other);
  }

  // ---- what is hashed ----

  function Fold(step: (State, Byte) -> State, h: State, bytes: seq<Byte>): State
    decreases |bytes|
  {
    if bytes == [] then h else Fold(step, step(h, bytes[0]), bytes[1..])
  }

  lemma {:induction false} FoldConcat(step: (State, Byte) -> State, h: State, first: seq<Byte>, second: seq<Byte>)
    ensures Fold(step, h, first + second) == Fold(step, Fold(step, h, first), second)
    decreases |first|
  {
    if first == [] {
      assert first + second == second;
    } else {
      FoldConcat(step, step(h, first[0]), first[1..], second);
      assert (first + second)[1..] == first[1..] + second;
    }
  }

  lemma {:induction false} FeedAllIsFold(h: State, bytes: seq<Byte>)
    ensures FeedAll(h, bytes) == Fold(Feed, h, bytes)
    decreases |bytes|
  {
    if bytes != [] {
      FeedAllIsFold(Feed(h, bytes[0]), bytes[1..]);
    }
  }

  /** Feeding two stretches one after the other is feeding their concatenation. */
  lemma FeedAllConcat(h: State, first: seq<Byte>, second: seq<Byte>)
    ensures FeedAll(h, first + second) == FeedAll(FeedAll(h, first), second)
  {
    FoldConcat(Feed, h, first, second);
    FeedAllIsFold(h, first + second);
    FeedAllIsFold(h, first);
    FeedAllIsFold(FeedAll(h, first), second);
  }

  lemma FeedStringIsFeedAll(h: State, s: string)
    ensures FeedString(h, s) == FeedAll(h, Utf8(s) + [0xFF])
  {
    var end: seq<Byte> := [0xFF];
    FeedAllConcat(h, Utf8(s), end);
    assert end[1..] == [];
  }

  /** The weight is the hash of the replica ID and the EPA key, each closed by the byte 0xFF. */
  lemma WeightHashesBytes(replica: string, key: string)
    ensures Weight(replica, key) == FeedAll(OFFSET_BASIS, Utf8(replica) + [0xFF] + (Utf8(key) + [0xFF]))
  {
    FeedStringIsFeedAll(OFFSET_BASIS, replica);
    FeedStringIsFeedAll(FeedString(OFFSET_BASIS, replica), key);
    var first: seq<Byte>, second: seq<Byte> := Utf8(replica) + [0xFF], Utf8(key) + [0xFF];
    FeedAllConcat(OFFSET_BASIS, first, second);
  }

  predicate Ascii(c: char) {
    c as int < 0x80
  }

  function Flattened<A, B>(encode: A -> seq<B>, s: seq<A>): seq<B> {
    if s == [] then [] else encode(s[0]) + Flattened(encode, s[1..])
  }

  lemma Associates<B>(a: seq<B>, b: seq<B>, c: seq<B>)
    ensures (a + b) + c == a + (b + c)
  {
  }

  lemma {:induction false} FlattenedConcat<A, B>(encode: A -> seq<B>, s: seq<A>, t: seq<A>)
    ensures Flattened(encode, s + t) == Flattened(encode, s) + Flattened(encode, t)
  {
    if s == [] {
      assert s + t == t;
    } else {
      FlattenedConcat(encode, s[1..], t);
      assert (s + t)[1..] == s[1..] + t;
      Associates(encode(s[0]), Flattened(encode, s[1..]), Flattened(encode, t));
    }
  }

  lemma {:induction false} Utf8IsFlattened(s: string)
    ensures Utf8(s) == Flattened(Utf8Char, s)
  {
    if s != [] {
      Utf8IsFlattened(s[1..]);
    }
  }

  lemma Utf8Concat(s: string, t: string)
    ensures Utf8(s + t) == Utf8(s) + Utf8(t)
  {
    FlattenedConcat(Utf8Char, s, t);
    Utf8IsFlattened(s + t);
    Utf8IsFlattened(s);
    Utf8IsFlattened(t);
  }

  lemma {:induction false} XorCommutes(x: nat, y: nat, bits: nat)
    ensures Xor(x, y, bits) == Xor(y, x, bits)
    decreases bits
  {
    if bits != 0 {
      XorCommutes(x / 2, y / 2, bits - 1);
    }
  }

  lemma FeedTellsBytesApart(h: State, b: Byte, c: Byte)
    requires Feed(h, b) == Feed(h, c)
    ensures b == c
  {
    MultiplyUndo(Mix(h, b));
    MultiplyUndo(Mix(h, c));
    var x := h % 0x100;
    assert XorByte(x, b) == Mix(h, b) % 0x100 == XorByte(x, c);
    XorCommutes(x, b, 8);
    XorCommutes(x, c, 8);
    XorByteUndo(b, x);
    XorByteUndo(c, x);
  }

  lemma FeedTellsCharsApart(h: State, c: char, d: char, after: string)
    requires Ascii(c) && Ascii(d) && FeedString(h, [c] + after) == FeedString(h, [d] + after)
    ensures c == d
  {
    var b: Byte, e: Byte := c as int, d as int;
    assert ([c] + after)[1..] == after && ([d] + after)[1..] == after;
    assert Utf8([c] + after) == [b] + Utf8(after) && Utf8([d] + after) == [e] + Utf8(after);
    assert Utf8([c] + after)[1..] == Utf8(after) == Utf8([d] + after)[1..];
    FeedInjective(FeedAll(h, Utf8([c] + after)), FeedAll(h, Utf8([d] + after)), 0xFF);
    FeedAllInjective(Feed(h, b), Feed(h, e), Utf8(after));
    FeedTellsBytesApart(h, b, e);
  }

  lemma StringsToldApart(h: State, before: string, c: char, d: char, after: string, s: string, t: string)
    requires Ascii(c) && Ascii(d) && c != d
    requires s == before + ([c] + after) && t == before + ([d] + after)
    ensures FeedString(h, s) != FeedString(h, t)
  {
    var g := FeedAll(h, Utf8(before));
    FedAfter(h, before, [c] + after);
    FedAfter(h, before, [d] + after);
    if FeedString(g, [c] + after) == FeedString(g, [d] + after) {
      FeedTellsCharsApart(g, c, d, after);
    }
  }

  /** Every replica weighs two EPAs differently whose keys differ in one ASCII character. */
  lemma WeightTellsKeysApart(replica: string, before: string, c: char, d: char, after: string)
    requires Ascii(c) && Ascii(d) && c != d
    ensures Weight(replica, before + [c] + after) != Weight(replica, before + [d] + after)
  {
    var s, t := before + [c] + after, before + [d] + after;
    assert s == before + ([c] + after) && t == before + ([d] + after);
    StringsToldApart(FeedString(OFFSET_BASIS, replica), before, c, d, after, s, t);
  }

  lemma FedAfter(h: State, before: string, rest: string)
    ensures FeedString(h, before + rest) == FeedString(FeedAll(h, Utf8(before)), rest)
  {
    Utf8Concat(before, rest);
    FeedAllConcat(h, Utf8(before), Utf8(rest));
  }

  // ---- the definitions are the standard ones ----

  lemma XorOfLetterA()
    ensures Xor(0x25, 0x61, 8) == 0x44
  {
    assert Xor(0x1, 0x3, 3) == 2;
    assert Xor(0x9, 0x18, 6) == 0x11;
    assert Xor(0x12, 0x30, 7) == 0x22;
  }

  lemma MixOfLetterA(b: Byte)
    requires b == 0x61
    ensures Mix(OFFSET_BASIS, b) == 0xcbf2_9ce4_8422_2344
  {
    XorOfLetterA();
    assert OFFSET_BASIS % 0x100 == 0x25 && OFFSET_BASIS / 0x100 == 0xcb_f29c_e484_2223;
  }

  /** A published test vector of 64-bit FNV-1a: the string "a". */
  lemma HashOfLetterA(bytes: seq<Byte>)
    requires bytes == [0x61]
    ensures FeedAll(OFFSET_BASIS, bytes) == 0xaf63_dc4c_8601_ec8c
  {
    MixOfLetterA(bytes[0]);
    assert bytes[1..] == [];
  }

  /** The length of the UTF-8 sequence at the head of the bytes, and its scalar value. */
  function HeadLength(bytes: seq<Byte>): nat
    requires bytes != []
  {
    if bytes[0] < 0x80 then 1 else if bytes[0] < 0xE0 then 2 else if bytes[0] < 0xF0 then 3 else 4
  }

  function HeadValue(bytes: seq<Byte>): int
    requires bytes != [] && HeadLength(bytes) <= |bytes|
  {
    var n := HeadLength(bytes);
    var b0 := bytes[0] as int;
    if n == 1 then b0
    else
      var b1 := bytes[1] as int - 0x80;
      if n == 2 then (b0 - 0xC0) * 0x40 + b1
      else
        var b2 := bytes[2] as int - 0x80;
        if n == 3 then (b0 - 0xE0) * 0x1000 + b1 * 0x40 + b2
        else
          var b3 := bytes[3] as int - 0x80;
          (b0 - 0xF0) * 0x4_0000 + b1 * 0x1000 + b2 * 0x40 + b3
  }

  lemma Digits(n: nat)
    ensures n / 0x1000 == n / 0x40 / 0x40 && n / 0x4_0000 == n / 0x1000 / 0x40
  {
  }

  lemma CharDecodes(c: char)
    ensures HeadLength(Utf8Char(c)) == |Utf8Char(c)| && HeadValue(Utf8Char(c)) == c as int
  {
    Digits(c as int);
  }

  lemma HeadDecodes(c: char, rest: seq<Byte>)
    ensures var bytes := Utf8Char(c) + rest;
      HeadLength(bytes) == |Utf8Char(c)| && HeadValue(bytes) == c as int
  {
    CharDecodes(c);
    var bytes := Utf8Char(c) + rest;
    assert forall i | 0 <= i < |Utf8Char(c)| :: bytes[i] == Utf8Char(c)[i];
  }

  /** The bytes determine the string. */
  lemma {:induction false} Utf8Injective(s: string, t: string)
    requires Utf8(s) == Utf8(t)
    ensures s == t
    decreases |s|
  {
    if s != [] && t != [] {
      HeadDecodes(s[0], Utf8(s[1..]));
      HeadDecodes(t[0], Utf8(t[1..]));
      assert s[0] == t[0];
      var n := |Utf8Char(s[0])|;
      assert Utf8(s)[n..] == Utf8(s[1..]) && Utf8(t)[n..] == Utf8(t[1..]);
      Utf8Injective(s[1..], t[1..]);
      assert s == [s[0]] + s[1..] && t == [t[0]] + t[1..];
    }
  }
}
