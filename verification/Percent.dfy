/** Percent-encoding of object keys and the decoder of the HTTP front end, on bytes
    (crates/ducklink-host/src/sigv4.rs:53-77, crates/ducklink-host/src/httpd.rs:393-421;
    sections 2.1 and 2.3 of RFC 3986). */
module Percent {
  import opened Wrappers

  const SLASH: Byte := 47
  const PERCENT: Byte := 37
  const PLUS: Byte := 43
  const SPACE: Byte := 32

  predicate IsUnreserved(b: Byte) {
    48 <= b <= 57 || 65 <= b <= 90 || 97 <= b <= 122 || b == 45 || b == 95 || b == 46 || b == 126
  }

  function UpperHex(d: nat): (b: Byte)
    requires d < 16
    ensures HexDigit(b) == Some(d) && 48 <= b <= 70
  {
    if d < 10 then 48 + d else 55 + d
  }

  /** `char::to_digit(16)`. */
  function HexDigit(b: Byte): (d: Option<nat>)
    ensures d.Some? ==> d.value < 16
  {
    if 48 <= b <= 57 then Some(b - 48)
    else if 65 <= b <= 70 then Some(b - 55)
    else if 97 <= b <= 102 then Some(b - 87)
    else None
  }

  function EncodeByte(b: Byte): Bytes {
    if IsUnreserved(b) then [b] else [PERCENT, UpperHex(b / 16), UpperHex(b % 16)]
  }

  function Encoded(seg: Bytes): Bytes {
    if seg == [] then [] else EncodeByte(seg[0]) + Encoded(seg[1..])
  }

  method EncodeSegment(seg: Bytes) returns (out: Bytes)
    ensures out == Encoded(seg)
  {
    out := [];
    assert seg[0..] == seg;
    for i := 0 to |seg|
      invariant out + Encoded(seg[i..]) == Encoded(seg)
    {
      assert seg[i..][1..] == seg[i + 1..];
      ghost var before, rest := out, Encoded(seg[i + 1..]);
      ConcatAssociates(before, EncodeByte(seg[i]), rest);
      if IsUnreserved(seg[i]) {
        out := out + [seg[i]];
      } else {
        out := out + [PERCENT, UpperHex(seg[i] / 16), UpperHex(seg[i] % 16)];
      }
      assert out == before + EncodeByte(seg[i]);
    }
  }

  /** `split('/')`: one more segment than there are slashes. */
  function SplitSlash(key: Bytes): (segs: seq<Bytes>)
    ensures segs != []
  {
    if key == [] then [[]]
    else if key[0] == SLASH then [[]] + SplitSlash(key[1..])
    else var rest := SplitSlash(key[1..]); [[key[0]] + rest[0]] + rest[1..]
  }

  function JoinSlash(segs: seq<Bytes>): Bytes
    requires segs != []
  {
    JoinWith(segs, [SLASH])
  }

  function EncodeAll(segs: seq<Bytes>): (out: seq<Bytes>)
    ensures |out| == |segs|
  {
    if segs == [] then [] else [Encoded(segs[0])] + EncodeAll(segs[1..])
  }

  function UriEncodePath(key: Bytes): Bytes {
    JoinSlash(EncodeAll(SplitSlash(key)))
  }

  function Decoded(s: Bytes): Bytes {
    if s == [] then []
    else if s[0] == PERCENT && |s| > 2 && HexDigit(s[1]).Some? && HexDigit(s[2]).Some? then
      [HexDigit(s[1]).value * 16 + HexDigit(s[2]).value] + Decoded(s[3..])
    else [if s[0] == PLUS then SPACE else s[0]] + Decoded(s[1..])
  }

  method PercentDecode(s: Bytes) returns (out: Bytes)
    ensures out == Decoded(s)
  {
    out := [];
    var i := 0;
    assert s[0..] == s;
    while i < |s|
      invariant 0 <= i <= |s| && out + Decoded(s[i..]) == Decoded(s)
    {
      var t := s[i..];
      assert t[1..] == s[i + 1..];
      ConcatAssociates(out, [if s[i] == PLUS then SPACE else s[i]], Decoded(t[1..]));
      if s[i] == PERCENT && i + 2 < |s| {
        assert t[3..] == s[i + 3..];
        var hi, lo := HexDigit(s[i + 1]), HexDigit(s[i + 2]);
        if hi.Some? && lo.Some? {
          ConcatAssociates(out, [hi.value * 16 + lo.value], Decoded(t[3..]));
          out := out + [hi.value * 16 + lo.value];
          i := i + 3;
          continue;
        }
        out := out + [PERCENT];
        i := i + 1;
      } else if s[i] == PLUS {
        out := out + [SPACE];
        i := i + 1;
      } else {
        out := out + [s[i]];
        i := i + 1;
      }
    }
  }

  // ---------------------------------------------------------------------------
  // Encoding byte by byte
  // ---------------------------------------------------------------------------

  function KeyByte(b: Byte): Bytes {
    if b == SLASH then [SLASH] else EncodeByte(b)
  }

  function KeyBytes(key: Bytes): Bytes {
    if key == [] then [] else KeyByte(key[0]) + KeyBytes(key[1..])
  }

  /** Splitting at slashes, encoding and joining encodes every byte but the slashes. */
  lemma {:induction false} PathIsBytewise(key: Bytes)
    ensures UriEncodePath(key) == KeyBytes(key)
  {
    if key != [] {
      var rest := SplitSlash(key[1..]);
      PathIsBytewise(key[1..]);
      if key[0] == SLASH {
        assert ([[]] + rest)[1..] == rest;
        var all := EncodeAll([[]] + rest);
        assert all == [[]] + EncodeAll(rest) && all[1..] == EncodeAll(rest);
        assert [] + [SLASH] + JoinSlash(EncodeAll(rest)) == [SLASH] + JoinSlash(EncodeAll(rest));
      } else {
        var segs := [[key[0]] + rest[0]] + rest[1..];
        assert segs[1..] == rest[1..];
        assert ([key[0]] + rest[0])[1..] == rest[0];
        assert EncodeAll(segs) == [EncodeByte(key[0]) + Encoded(rest[0])] + EncodeAll(rest[1..]);
        JoinHead(EncodeByte(key[0]), Encoded(rest[0]), EncodeAll(rest[1..]));
        assert EncodeAll(rest) == [Encoded(rest[0])] + EncodeAll(rest[1..]);
      }
    }
  }

  lemma JoinHead(a: Bytes, b: Bytes, tail: seq<Bytes>)
    ensures JoinSlash([a + b] + tail) == a + JoinSlash([b] + tail)
  {
    assert ([a + b] + tail)[1..] == tail && ([b] + tail)[1..] == tail;
    if tail != [] { assert a + b + [SLASH] + JoinSlash(tail) == a + (b + [SLASH] + JoinSlash(tail)); }
  }

  lemma DecodeKeyByte(b: Byte, rest: Bytes)
    ensures Decoded(KeyByte(b) + rest) == [b] + Decoded(rest)
  {
    var t := KeyByte(b) + rest;
    if b == SLASH || IsUnreserved(b) {
      assert t[1..] == rest;
    } else {
      assert t[3..] == rest && b / 16 * 16 + b % 16 == b;
    }
  }

  lemma {:induction false} DecodeUndoesBytes(key: Bytes)
    ensures Decoded(KeyBytes(key)) == key
  {
    if key != [] {
      DecodeKeyByte(key[0], KeyBytes(key[1..]));
      DecodeUndoesBytes(key[1..]);
    }
  }

  /** The decoder undoes the encoder on every key. */
  lemma DecodeUndoesEncode(key: Bytes)
    ensures Decoded(UriEncodePath(key)) == key
  {
    PathIsBytewise(key);
    DecodeUndoesBytes(key);
  }

  /** No two keys share an encoding. */
  lemma EncodeInjective(j: Bytes, k: Bytes)
    requires UriEncodePath(j) == UriEncodePath(k)
    ensures j == k
  {
    DecodeUndoesEncode(j);
    DecodeUndoesEncode(k);
  }

  // ---------------------------------------------------------------------------
  // What an encoding looks like
  // ---------------------------------------------------------------------------

  const HEX := "0123456789ABCDEF"
  const HEX_LOWER := "0123456789abcdef"

  /** The unreserved characters of section 2.3 of RFC 3986. */
  predicate StandsForItself(b: Byte) {
    var c := b as char;
    'A' <= c <= 'Z' || 'a' <= c <= 'z' || '0' <= c <= '9' || c in "-._~"
  }

  lemma UnreservedIs(b: Byte)
    ensures IsUnreserved(b) <==> StandsForItself(b)
  {}

  predicate IsUpperHex(b: Byte) {
    b as char in HEX
  }

  function Pair(h: Byte, l: Byte): (b: Byte)
    requires IsUpperHex(h) && IsUpperHex(l)
  {
    IndexOf(HEX, h as char) * 16 + IndexOf(HEX, l as char)
  }

  lemma UpperHexIs(d: nat)
    requires d < 16
    ensures UpperHex(d) as char == HEX[d]
  {}

  lemma PlaceInHex(d: nat)
    requires d < 16
    ensures IndexOf(HEX, HEX[d]) == d
  {
    hide IndexOf;
    var k := IndexOf(HEX, HEX[d]);
    assert k <= d;
    HexIsInjective(k, d);
  }

  lemma HexIsInjective(i: nat, j: nat)
    requires i < 16 && j < 16 && HEX[i] == HEX[j]
    ensures i == j
  {}

  /** The decoder's digits, in either case. */
  lemma HexDigitIs(b: Byte, d: nat)
    requires d < 16
    ensures HexDigit(b) == Some(d) <==> b as char == HEX[d] || b as char == HEX_LOWER[d]
  {}

  /** Unreserved bytes and slashes as they are, anything else as `%XX` in upper case. */
  predicate Canonical(s: Bytes) {
    if s == [] then true
    else if s[0] as char == '%' then
      |s| > 2 && IsUpperHex(s[1]) && IsUpperHex(s[2])
      && !StandsForItself(Pair(s[1], s[2])) && Pair(s[1], s[2]) as char != '/' && Canonical(s[3..])
    else (StandsForItself(s[0]) || s[0] as char == '/') && Canonical(s[1..])
  }

  lemma EscapeIsCanonical(b: Byte)
    ensures var (h, l) := (UpperHex(b / 16), UpperHex(b % 16)); IsUpperHex(h) && IsUpperHex(l) && Pair(h, l) == b
  {
    hide IndexOf, UpperHex;
    UpperHexIs(b / 16);
    UpperHexIs(b % 16);
    PlaceInHex(b / 16);
    PlaceInHex(b % 16);
    assert HEX[b / 16] in HEX && HEX[b % 16] in HEX;
  }

  lemma {:induction false} EncodingIsCanonical(key: Bytes)
    ensures Canonical(KeyBytes(key))
  {
    if key != [] {
      hide IsUpperHex, Pair, StandsForItself, UpperHex;
      EncodingIsCanonical(key[1..]);
      var b, rest := key[0], KeyBytes(key[1..]);
      var t := KeyByte(b) + rest;
      UnreservedIs(b);
      EscapeIsCanonical(b);
      PercentIsReserved();
      if b == SLASH || IsUnreserved(b) {
        assert t[0] == b && t[1..] == rest;
      } else {
        assert t[0] == PERCENT && t[3..] == rest;
      }
    }
  }

  lemma PercentIsReserved()
    ensures !IsUnreserved(PERCENT) && PERCENT as char == '%' && SLASH as char == '/'
  {}

  lemma UpperHexRead(b: Byte)
    requires IsUpperHex(b)
    ensures var d := IndexOf(HEX, b as char); d < 16 && HexDigit(b) == Some(d) && UpperHex(d) == b
  {
    hide IndexOf, HexDigit, UpperHex;
    var k :| 0 <= k < |HEX| && HEX[k] == b as char;
    PlaceInHex(k);
    UpperHexIs(k);
    HexDigitIs(b, k);
  }

  lemma EscapeReads(h: Byte, l: Byte, rest: Bytes)
    requires IsUpperHex(h) && IsUpperHex(l)
    ensures var b := Pair(h, l);
      && 0 <= b < 256 && Decoded([PERCENT, h, l] + rest) == [b] + Decoded(rest)
      && UpperHex(b / 16) == h && UpperHex(b % 16) == l
  {
    hide IndexOf, HexDigit, UpperHex, IsUpperHex;
    UpperHexRead(h);
    UpperHexRead(l);
    assert ([PERCENT, h, l] + rest)[3..] == rest;
  }

  lemma EscapeComesBack(h: Byte, l: Byte, rest: Bytes)
    requires IsUpperHex(h) && IsUpperHex(l) && !StandsForItself(Pair(h, l)) && Pair(h, l) as char != '/'
    requires KeyBytes(Decoded(rest)) == rest
    ensures KeyBytes(Decoded([PERCENT, h, l] + rest)) == [PERCENT, h, l] + rest
  {
    hide IsUpperHex, Pair, StandsForItself, UpperHex, HexDigit, Decoded;
    var b := Pair(h, l);
    EscapeReads(h, l, rest);
    UnreservedIs(b);
    PercentIsReserved();
    assert ([b] + Decoded(rest))[1..] == Decoded(rest);
  }

  lemma RawComesBack(b: Byte, rest: Bytes)
    requires (StandsForItself(b) || b as char == '/') && KeyBytes(Decoded(rest)) == rest
    ensures KeyBytes(Decoded([b] + rest)) == [b] + rest
  {
    hide StandsForItself;
    UnreservedIs(b);
    PercentIsReserved();
    PlusIsReserved();
    assert ([b] + rest)[1..] == rest && ([b] + Decoded(rest))[1..] == Decoded(rest);
  }

  lemma {:induction false} CanonicalIsEncoding(s: Bytes)
    requires Canonical(s)
    ensures KeyBytes(Decoded(s)) == s
  {
    hide IsUpperHex, Pair, StandsForItself, KeyBytes, Decoded, Canonical;
    if s == [] {
      NothingEncoded();
    } else {
      CanonicalStep(s);
      if s[0] == PERCENT {
        CanonicalIsEncoding(s[3..]);
        EscapeComesBack(s[1], s[2], s[3..]);
      } else {
        CanonicalIsEncoding(s[1..]);
        RawComesBack(s[0], s[1..]);
      }
    }
  }

  lemma CanonicalStep(s: Bytes)
    requires s != [] && Canonical(s)
    ensures s[0] == PERCENT ==>
      && |s| > 2 && IsUpperHex(s[1]) && IsUpperHex(s[2]) && Canonical(s[3..]) && s == [PERCENT, s[1], s[2]] + s[3..]
      && !StandsForItself(Pair(s[1], s[2])) && Pair(s[1], s[2]) as char != '/'
    ensures s[0] != PERCENT ==>
      (StandsForItself(s[0]) || s[0] as char == '/') && Canonical(s[1..]) && s == [s[0]] + s[1..]
  {
    hide IsUpperHex, Pair, StandsForItself;
    PercentIsReserved();
    if s[0] as char == '%' { assert s[0] == PERCENT; }
  }

  lemma NothingEncoded()
    ensures KeyBytes(Decoded([])) == []
  {}

  lemma PlusIsReserved()
    ensures !IsUnreserved(PLUS) && PLUS != SLASH
  {}

  /** A byte string is the encoding of some key exactly when it is canonical. */
  lemma EncodingsAreTheCanonicalStrings(s: Bytes)
    ensures Canonical(s) <==> exists key :: UriEncodePath(key) == s
  {
    if Canonical(s) {
      CanonicalIsEncoding(s);
      PathIsBytewise(Decoded(s));
      assert UriEncodePath(Decoded(s)) == s;
    }
    forall key | UriEncodePath(key) == s ensures Canonical(s) {
      PathIsBytewise(key);
      EncodingIsCanonical(key);
    }
  }

  function Slashes(s: Bytes): nat {
    if s == [] then 0 else (if s[0] == SLASH then 1 else 0) + Slashes(s[1..])
  }

  lemma SlashesOfKeyByte(b: Byte, rest: Bytes)
    ensures Slashes(KeyByte(b) + rest) == (if b == SLASH then 1 else 0) + Slashes(rest)
  {
    var t := KeyByte(b) + rest;
    if b == SLASH || IsUnreserved(b) {
      assert t[1..] == rest;
    } else {
      assert t[1..][1..][1..] == rest;
      assert Slashes(t) == Slashes(t[1..]) == Slashes(t[1..][1..]);
    }
  }

  /** Encoding keeps the path structure: as many slashes come out as go in. */
  lemma {:induction false} SlashesAreKept(key: Bytes)
    ensures Slashes(UriEncodePath(key)) == Slashes(key)
  {
    PathIsBytewise(key);
    if key != [] {
      SlashesOfKeyByte(key[0], KeyBytes(key[1..]));
      PathIsBytewise(key[1..]);
      SlashesAreKept(key[1..]);
    }
  }

  // ---------------------------------------------------------------------------
  // What the decoder makes of any text
  // ---------------------------------------------------------------------------

  /** A byte as it is, a plus, an escape with digits in either case, or a percent sign that
      starts none. */
  datatype Item = Raw(b: Byte) | Plus | Escape(hi: nat, lo: nat, upperHi: bool, upperLo: bool) | Stray

  function Digit(d: nat, upper: bool): Byte
    requires d < 16
  {
    (if upper then HEX[d] else HEX_LOWER[d]) as int
  }

  predicate IsItem(x: Item, after: Bytes) {
    match x
    case Raw(b) => b as char != '%' && b as char != '+'
    case Plus => true
    case Escape(hi, lo, _, _) => hi < 16 && lo < 16
    case Stray => !(|after| >= 2 && IsHex(after[0]) && IsHex(after[1]))
  }

  predicate IsHex(b: Byte) {
    b as char in HEX || b as char in HEX_LOWER
  }

  predicate AreItems(xs: seq<Item>) {
    xs == [] || (AreItems(xs[1..]) && IsItem(xs[0], ItemsText(xs[1..])))
  }

  function ItemText(x: Item): Bytes {
    match x
    case Raw(b) => [b]
    case Plus => ['+' as int]
    case Escape(hi, lo, u, v) => if hi < 16 && lo < 16 then ['%' as int, Digit(hi, u), Digit(lo, v)] else []
    case Stray => ['%' as int]
  }

  function ItemsText(xs: seq<Item>): Bytes {
    if xs == [] then [] else ItemText(xs[0]) + ItemsText(xs[1..])
  }

  /** A plus is a blank, an escape the byte it names, anything else itself. */
  function ItemsMean(xs: seq<Item>): Bytes {
    if xs == [] then [] else
    (match xs[0]
     case Raw(b) => [b]
     case Plus => [' ' as int]
     case Escape(hi, lo, _, _) => if hi < 16 && lo < 16 then [hi * 16 + lo] else []
     case Stray => ['%' as int])
    + ItemsMean(xs[1..])
  }

  lemma IsHexIs(b: Byte)
    ensures IsHex(b) <==> HexDigit(b).Some?
  {
    if HexDigit(b).Some? {
      var d := HexDigit(b).value;
      HexDigitIs(b, d);
      assert HEX[d] in HEX && HEX_LOWER[d] in HEX_LOWER;
    }
    if IsHex(b) {
      var d :| 0 <= d < 16 && (HEX[d] == b as char || HEX_LOWER[d] == b as char);
      HexDigitIs(b, d);
    }
  }

  lemma DecodesItem(x: Item, after: Bytes)
    requires IsItem(x, after)
    ensures Decoded(ItemText(x) + after) == ItemsMean([x]) + Decoded(after)
  {
    var t := ItemText(x) + after;
    assert [x][1..] == [];
    match x {
      case Raw(b) => assert t[1..] == after;
      case Plus => assert t[1..] == after;
      case Escape(hi, lo, u, v) =>
        assert t[3..] == after;
        HexDigitIs(Digit(hi, u), hi);
        HexDigitIs(Digit(lo, v), lo);
      case Stray =>
        assert t[1..] == after;
        if |after| >= 2 {
          IsHexIs(after[0]);
          IsHexIs(after[1]);
        }
    }
  }

  /** Any text in form encoding is decoded item by item. */
  lemma {:induction false} DecodesItems(xs: seq<Item>)
    requires AreItems(xs)
    ensures Decoded(ItemsText(xs)) == ItemsMean(xs)
  {
    if xs != [] {
      hide Decoded, IsItem, ItemText;
      DecodesItems(xs[1..]);
      DecodesItem(xs[0], ItemsText(xs[1..]));
      ItemsMeanStep(xs);
    }
  }

  lemma ItemsMeanStep(xs: seq<Item>)
    requires xs != []
    ensures ItemsMean(xs) == ItemsMean([xs[0]]) + ItemsMean(xs[1..])
  {
    assert [xs[0]][1..] == [];
  }

  lemma FirstItem(s: Bytes) returns (x: Item, after: Bytes)
    requires s != []
    ensures s == ItemText(x) + after && IsItem(x, after)
  {
    if s[0] as char == '+' {
      x, after := Plus, s[1..];
    } else if s[0] as char != '%' {
      x, after := Raw(s[0]), s[1..];
    } else if |s| > 2 && IsHex(s[1]) && IsHex(s[2]) {
      var hi, u := DigitOf(s[1]);
      var lo, v := DigitOf(s[2]);
      x, after := Escape(hi, lo, u, v), s[3..];
      assert s == [s[0], s[1], s[2]] + s[3..];
    } else {
      x, after := Stray, s[1..];
      assert s == [s[0]] + s[1..];
    }
  }

  lemma DigitOf(b: Byte) returns (d: nat, upper: bool)
    requires IsHex(b)
    ensures d < 16 && Digit(d, upper) == b
  {
    if b as char in HEX {
      d :| d < 16 && HEX[d] == b as char;
      upper := true;
    } else {
      d :| d < 16 && HEX_LOWER[d] == b as char;
      upper := false;
    }
  }

  /** And every text is one in form encoding. */
  lemma {:induction false} EveryTextHasItems(s: Bytes) returns (xs: seq<Item>)
    ensures AreItems(xs) && ItemsText(xs) == s
    decreases |s|
  {
    if s == [] {
      xs := [];
    } else {
      hide IsItem, ItemText;
      var x, after := FirstItem(s);
      ItemTakesRoom(x, after);
      var more := EveryTextHasItems(after);
      xs := [x] + more;
      assert xs[1..] == more;
    }
  }

  lemma ItemTakesRoom(x: Item, after: Bytes)
    requires IsItem(x, after)
    ensures |ItemText(x)| > 0
  {}
}
