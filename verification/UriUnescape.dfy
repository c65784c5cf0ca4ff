/** uri_unescape in dev-net-ip-netfilter/nat_httpd.c, which decodes a C string in place. */
module UriUnescape {

  type Byte = b: int | 0 <= b < 256

  const SPACE: Byte := 32
  const PERCENT: Byte := 37
  const PLUS: Byte := 43
  const NINE: Byte := 57

  // isspace in the C locale.
  predicate IsSpace(c: Byte) {
    c == SPACE || 9 <= c <= 13
  }

  // (c & 0x0F) + 9 * (c > '9'); where char is signed, a byte from 128 on is negative.
  function Nibble(c: Byte, signed: bool): nat {
    c % 16 + if c > NINE && !(signed && c >= 128) then 9 else 0
  }

  // The byte of two hex digits, as a char keeps it.
  function Octet(hi: Byte, lo: Byte, signed: bool): Byte {
    (Nibble(hi, signed) * 16 + Nibble(lo, signed)) % 256
  }

  // ---------- the decoder on a copy of the string ----------

  // How far the first loop runs: nothing before the first escape is changed.
  function Literal(s: seq<Byte>): (k: nat)
    ensures k <= |s|
  {
    if s == [] || IsSpace(s[0]) || s[0] == PERCENT then 0 else 1 + Literal(s[1..])
  }

  // How many characters the next one is decoded from.
  function Taken(s: seq<Byte>): (n: nat)
    requires s != []
    ensures 1 <= n <= |s|
  {
    if s[0] == PERCENT && |s| >= 3 then 3 else 1
  }

  function Decoded(s: seq<Byte>, signed: bool): Byte
    requires s != []
  {
    if s[0] == PLUS then SPACE else if Taken(s) == 3 then Octet(s[1], s[2], signed) else s[0]
  }

  function Decode(s: seq<Byte>, signed: bool): (r: seq<Byte>)
    ensures |r| <= |s|
    decreases |s|
  {
    if s == [] || IsSpace(s[0]) then [] else [Decoded(s, signed)] + Decode(s[Taken(s)..], signed)
  }

  function Unescape(s: seq<Byte>, signed: bool): (r: seq<Byte>)
    ensures |r| <= |s|
  {
    s[..Literal(s)] + Decode(s[Literal(s)..], signed)
  }

  // ---------- the code ----------

  // Where a C string ends.
  function Length(buf: seq<Byte>): (n: nat)
    requires 0 in buf
    ensures n < |buf| && buf[n] == 0 && 0 !in buf[..n]
  {
    if buf[0] == 0 then 0 else 1 + Length(buf[1..])
  }

  lemma LiteralAt(s: seq<Byte>, i: nat)
    requires i <= Literal(s)
    ensures Literal(s) == i + Literal(s[i..])
    decreases i
  {
    if i > 0 {
      LiteralAt(s[1..], i - 1);
      assert s[1..][i - 1..] == s[i..];
    }
  }

  // The first loop.
  method SkipLiteral(uri: array<Byte>) returns (src: nat)
    requires 0 in uri[..]
    ensures src == Literal(uri[..Length(uri[..])])
  {
    ghost var s := uri[..Length(uri[..])];
    src := 0;
    while uri[src] != 0 && !IsSpace(uri[src]) && uri[src] != PERCENT
      invariant 0 <= src <= Literal(s)
      decreases uri.Length - src
    {
      LiteralAt(s, src);
      src := src + 1;
    }
    LiteralAt(s, src);
  }

  predicate NoNul(s: seq<Byte>) {
    forall k | 0 <= k < |s| :: s[k] != 0
  }

  // The array still holds s and its NUL from position from on.
  predicate Intact(uri: array<Byte>, s: seq<Byte>, from: nat)
    reads uri
  {
    |s| < uri.Length && uri[|s|] == 0 && forall k | from <= k < |s| :: uri[k] == s[k]
  }

  // Whether two more characters follow the one at src.
  method HasTwoMore(uri: array<Byte>, src: nat, ghost s: seq<Byte>) returns (yes: bool)
    requires src < |s| && NoNul(s) && Intact(uri, s, src)
    ensures yes <==> src + 3 <= |s|
  {
    yes := uri[src + 1] != 0 && uri[src + 2] != 0;
  }

  method ReadOctet(uri: array<Byte>, src: nat, signed: bool) returns (chr: Byte)
    requires src + 1 < uri.Length
    ensures chr == Octet(uri[src], uri[src + 1], signed)
  {
    chr := (Nibble(uri[src], signed) * 16) % 256;
    Carry(Nibble(uri[src], signed) * 16, Nibble(uri[src + 1], signed));
    chr := (chr + Nibble(uri[src + 1], signed)) % 256;
  }

  lemma Carry(x: nat, y: nat)
    ensures (x % 256 + y) % 256 == (x + y) % 256
  {
  }

  // The next decoded character of s and where its source ends.
  method Next(uri: array<Byte>, start: nat, signed: bool, ghost s: seq<Byte>) returns (chr: Byte, src: nat)
    requires start < |s| && NoNul(s) && Intact(uri, s, start)
    ensures chr == Decoded(s[start..], signed) && src == start + Taken(s[start..])
  {
    src := start;
    var escape := false;
    if uri[src] == PERCENT {
      escape := HasTwoMore(uri, src, s);
    }
    if uri[src] == PLUS {
      chr := SPACE;
    } else if escape {
      chr := ReadOctet(uri, src + 1, signed);
      src := src + 2;
    } else {
      chr := uri[src];
    }
    src := src + 1;
  }

  // What is still to be decoded, from position src of s, is the rest of r from dst on.
  predicate Remains(s: seq<Byte>, signed: bool, src: nat, r: seq<Byte>, dst: nat) {
    src <= |s| && dst <= |r| && r[dst..] == Decode(s[src..], signed)
  }

  lemma Turn(s: seq<Byte>, signed: bool, src: nat, r: seq<Byte>, dst: nat)
    requires Remains(s, signed, src, r, dst) && src < |s| && !IsSpace(s[src])
    ensures dst < |r| && r[dst] == Decoded(s[src..], signed)
    ensures Remains(s, signed, src + Taken(s[src..]), r, dst + 1)
  {
    var next := src + Taken(s[src..]);
    assert s[src..][Taken(s[src..])..] == s[next..];
    assert r[dst..][0] == r[dst] && r[dst..][1..] == r[dst + 1..];
  }

  lemma End(s: seq<Byte>, signed: bool, src: nat, r: seq<Byte>, dst: nat)
    requires Remains(s, signed, src, r, dst) && (src < |s| ==> IsSpace(s[src]))
    ensures dst == |r|
  {
  }

  lemma Begin(s: seq<Byte>, signed: bool)
    ensures Remains(s, signed, Literal(s), Unescape(s, signed), Literal(s))
    ensures forall k | 0 <= k < Literal(s) :: Unescape(s, signed)[k] == s[k]
  {
  }

  // One round of the second loop: the write at dst does not reach what is still to be read.
  method Round(uri: array<Byte>, src: nat, dst: nat, signed: bool, ghost s: seq<Byte>, ghost r: seq<Byte>) returns (next: nat)
    requires dst <= src < |s| && !IsSpace(s[src]) && NoNul(s) && Intact(uri, s, src) && Remains(s, signed, src, r, dst)
    modifies uri
    ensures src < next <= |s| && Intact(uri, s, next) && Remains(s, signed, next, r, dst + 1)
    ensures uri[dst] == r[dst] && forall k | 0 <= k < uri.Length && k != dst :: uri[k] == old(uri[k])
  {
    Turn(s, signed, src, r, dst);
    var chr;
    chr, next := Next(uri, src, signed, s);
    uri[dst] := chr;
  }

  // The second loop, from the end of the literal start of s; dst is where it stops writing.
  method DecodeRest(uri: array<Byte>, start: nat, signed: bool, ghost s: seq<Byte>, ghost r: seq<Byte>) returns (dst: nat)
    requires NoNul(s) && Intact(uri, s, 0) && Remains(s, signed, start, r, start)
    requires forall k | 0 <= k < start :: uri[k] == r[k]
    modifies uri
    ensures dst == |r| <= |s|
    ensures forall k | 0 <= k < dst :: uri[k] == r[k]
    ensures forall k | dst <= k < uri.Length :: uri[k] == old(uri[k])
  {
    var src := start;
    dst := src;
    while uri[src] != 0 && !IsSpace(uri[src])
      invariant dst <= src <= |s| && Intact(uri, s, src) && Remains(s, signed, src, r, dst)
      invariant forall k | 0 <= k < dst :: uri[k] == r[k]
      invariant forall k | dst <= k < uri.Length :: uri[k] == old(uri[k])
      decreases |s| - src
    {
      src := Round(uri, src, dst, signed, s, r);
      dst := dst + 1;
    }
    End(s, signed, src, r, dst);
  }

  // The decoder on the array itself gives what the decoder on a copy gives, ends it with a
  // NUL and leaves every byte after that as it was.
  method UriUnescape(uri: array<Byte>, signed: bool)
    requires 0 in uri[..]
    modifies uri
    ensures var s := old(uri[..Length(uri[..])]);
            var r := Unescape(s, signed);
            uri[..] == r + [0] + old(uri[..])[|r| + 1..]
  {
    ghost var s, buf := uri[..Length(uri[..])], uri[..];
    var src := SkipLiteral(uri);
    Begin(s, signed);
    var dst := DecodeRest(uri, src, signed, s, Unescape(s, signed));
    uri[dst] := 0;
    Assembled(uri[..], Unescape(s, signed), buf);
  }

  lemma Assembled(u: seq<Byte>, r: seq<Byte>, buf: seq<Byte>)
    requires |r| < |u| == |buf| && u[|r|] == 0
    requires (forall k | 0 <= k < |r| :: u[k] == r[k]) && (forall k | |r| < k < |u| :: u[k] == buf[k])
    ensures u == r + [0] + buf[|r| + 1..]
  {
  }

  // ---------- the encoder it inverts ----------

  // One character of an encoded string: itself, a plus sign for a space, or an escape with
  // hex digits of either case.
  datatype Piece = Plain(b: Byte) | Blank | Escape(b: Byte, upperHi: bool, upperLo: bool)

  // A character that may stand for itself.
  predicate Safe(b: Byte) {
    b != 0 && !IsSpace(b) && b != PERCENT && b != PLUS
  }

  predicate WellFormed(pieces: seq<Piece>) {
    forall i | 0 <= i < |pieces| && pieces[i].Plain? :: Safe(pieces[i].b)
  }

  function HexDigit(v: nat, upper: bool): Byte
    requires v < 16
  {
    if v < 10 then 48 + v else if upper then 55 + v else 87 + v
  }

  function Encoded(p: Piece): seq<Byte> {
    match p
    case Plain(b) => [b]
    case Blank => [43]
    case Escape(b, upperHi, upperLo) => [37, HexDigit(b / 16, upperHi), HexDigit(b % 16, upperLo)]
  }

  function Encode(pieces: seq<Piece>): seq<Byte> {
    if pieces == [] then [] else Encoded(pieces[0]) + Encode(pieces[1..])
  }

  // What a piece stands for.
  function Meaning(p: Piece): Byte {
    if p.Blank? then 32 else p.b
  }

  function Meanings(pieces: seq<Piece>): (r: seq<Byte>)
    ensures |r| == |pieces|
  {
    if pieces == [] then [] else [Meaning(pieces[0])] + Meanings(pieces[1..])
  }

  lemma OctetOfDigits(b: Byte, upperHi: bool, upperLo: bool, signed: bool)
    ensures Octet(HexDigit(b / 16, upperHi), HexDigit(b % 16, upperLo), signed) == b
  {
    DigitNibble(b / 16, upperHi, signed);
    DigitNibble(b % 16, upperLo, signed);
  }

  lemma DigitNibble(v: nat, upper: bool, signed: bool)
    requires v < 16
    ensures Nibble(HexDigit(v, upper), signed) == v
  {
  }

  lemma DecodePiece(p: Piece, rest: seq<Byte>, signed: bool)
    requires p.Plain? ==> Safe(p.b)
    ensures Decode(Encoded(p) + rest, signed) == [Meaning(p)] + Decode(rest, signed)
  {
    var s := Encoded(p) + rest;
    if p.Escape? {
      OctetOfDigits(p.b, p.upperHi, p.upperLo, signed);
    }
    assert Taken(s) == |Encoded(p)| && s[Taken(s)..] == rest;
  }

  lemma {:induction false} DecodeEncode(pieces: seq<Piece>, signed: bool)
    requires WellFormed(pieces)
    ensures Decode(Encode(pieces), signed) == Meanings(pieces)
    decreases |pieces|
  {
    if pieces != [] {
      DecodePiece(pieces[0], Encode(pieces[1..]), signed);
      DecodeEncode(pieces[1..], signed);
    }
  }

  // No plus sign stands for a space before the first escape.
  predicate BlanksLate(pieces: seq<Piece>) {
    pieces == [] || pieces[0].Escape? || (pieces[0].Plain? && BlanksLate(pieces[1..]))
  }

  lemma UnescapeLiteral(b: Byte, rest: seq<Byte>, signed: bool)
    requires !IsSpace(b) && b != PERCENT
    ensures Unescape([b] + rest, signed) == [b] + Unescape(rest, signed)
  {
    var s, k := [b] + rest, Literal(rest);
    assert s[1..] == rest;
    assert s[..k + 1] == [b] + rest[..k] && s[k + 1..] == rest[k..];
  }

  lemma UnescapeAtEscape(s: seq<Byte>, signed: bool)
    requires s != [] && s[0] == PERCENT
    ensures Unescape(s, signed) == Decode(s, signed)
  {
    assert s[0..] == s;
  }

  lemma UnescapePiece(p: Piece, rest: seq<Byte>, signed: bool)
    requires p.Plain? ==> Safe(p.b)
    ensures Unescape(Encoded(p) + rest, signed) ==
            if p.Escape? then [p.b] + Decode(rest, signed)
            else Encoded(p) + Unescape(rest, signed)
  {
    if p.Escape? {
      UnescapeAtEscape(Encoded(p) + rest, signed);
      DecodePiece(p, rest, signed);
    } else {
      UnescapeLiteral(Encoded(p)[0], rest, signed);
    }
  }

  // Decoding gives back what was encoded exactly when no plus sign for a space comes
  // before the first escape; before it a plus sign stays as it is.
  lemma {:induction false} InvertsExactly(pieces: seq<Piece>, signed: bool)
    requires WellFormed(pieces)
    ensures |Unescape(Encode(pieces), signed)| == |pieces|
    ensures Unescape(Encode(pieces), signed) == Meanings(pieces) <==> BlanksLate(pieces)
    decreases |pieces|
  {
    if pieces != [] {
      UnescapePiece(pieces[0], Encode(pieces[1..]), signed);
      if pieces[0].Escape? {
        DecodeEncode(pieces[1..], signed);
      } else {
        var rest := Unescape(Encode(pieces[1..]), signed);
        InvertsExactly(pieces[1..], signed);
        assert (Encoded(pieces[0]) + rest)[1..] == rest && Meanings(pieces)[1..] == Meanings(pieces[1..]);
        assert (Encoded(pieces[0]) + rest)[0] == Encoded(pieces[0])[0] && Meanings(pieces)[0] == Meaning(pieces[0]);
      }
    }
  }

  // ---------- strings that no encoder makes ----------

  // Encoded text before tail, and what it stands for before r.
  lemma JoinFirst(a: seq<Piece>, tail: seq<Byte>, r: seq<Byte>, s: seq<Byte>, s1: seq<Byte>)
    requires a != [] && s == Encode(a) + tail && s1 == Encode(a[1..]) + tail
    ensures s == Encoded(a[0]) + s1
    ensures [Meaning(a[0])] + (Meanings(a[1..]) + r) == Meanings(a) + r
  {
    Joined(Encoded(a[0]), Encode(a[1..]), tail, Encode(a));
    Joined([Meaning(a[0])], Meanings(a[1..]), r, Meanings(a));
  }

  lemma Joined(x: seq<Byte>, y: seq<Byte>, z: seq<Byte>, xy: seq<Byte>)
    requires xy == x + y
    ensures x + (y + z) == xy + z
  {
  }

  lemma JoinNone(tail: seq<Byte>, r: seq<Byte>)
    ensures Encode([]) + tail == tail && Meanings([]) + r == r
  {
  }

  lemma {:induction false} DecodeJoin(a: seq<Piece>, tail: seq<Byte>, signed: bool, r: seq<Byte>, s: seq<Byte>)
    requires WellFormed(a) && s == Encode(a) + tail && r == Decode(tail, signed)
    ensures Decode(s, signed) == Meanings(a) + r
    decreases |a|
  {
    if a == [] {
      JoinNone(tail, r);
    } else {
      var s1 := Encode(a[1..]) + tail;
      DecodeJoin(a[1..], tail, signed, r, s1);
      JoinFirst(a, tail, r, s, s1);
      DecodePiece(a[0], s1, signed);
    }
  }

  // Text after encoded text is decoded as it would be alone.
  lemma {:induction false} UnescapeJoin(a: seq<Piece>, tail: seq<Byte>, signed: bool, r: seq<Byte>, s: seq<Byte>)
    requires WellFormed(a) && BlanksLate(a) && s == Encode(a) + tail && r == Unescape(tail, signed) == Decode(tail, signed)
    ensures Unescape(s, signed) == Meanings(a) + r
    decreases |a|
  {
    if a == [] {
      JoinNone(tail, r);
    } else {
      var s1 := Encode(a[1..]) + tail;
      JoinFirst(a, tail, r, s, s1);
      UnescapePiece(a[0], s1, signed);
      if a[0].Escape? {
        DecodeJoin(a[1..], tail, signed, r, s1);
      } else {
        UnescapeJoin(a[1..], tail, signed, r, s1);
      }
    }
  }

  // A percent sign that fewer than two characters follow stands for itself.
  lemma StrayPercent(pieces: seq<Piece>, tail: seq<Byte>, signed: bool)
    requires WellFormed(pieces) && BlanksLate(pieces) && |tail| <= 1 && (tail != [] ==> Safe(tail[0]))
    ensures Unescape(Encode(pieces) + ([37] + tail), signed) == Meanings(pieces) + ([37] + tail)
  {
    var s := [37] + tail;
    assert s[1..] == tail;
    assert tail != [] ==> tail[1..] == [];
    UnescapeAtEscape(s, signed);
    assert Decode(s, signed) == s;
    UnescapeJoin(pieces, s, signed, s, Encode(pieces) + s);
  }

  // White space ends the string, whatever follows.
  lemma SpaceEnds(pieces: seq<Piece>, w: Byte, rest: seq<Byte>, signed: bool)
    requires WellFormed(pieces) && BlanksLate(pieces) && w in {9, 10, 11, 12, 13, 32}
    ensures Unescape(Encode(pieces) + ([w] + rest), signed) == Meanings(pieces)
  {
    var s := [w] + rest;
    assert Literal(s) == 0 && s[0..] == s && s[..0] == [];
    assert Decode(s, signed) == [];
    UnescapeJoin(pieces, s, signed, [], Encode(pieces) + s);
    assert Meanings(pieces) + [] == Meanings(pieces);
  }

  // The value of a char, which may be signed.
  function Char(c: Byte, signed: bool): int {
    if signed && c >= 128 then c - 256 else c
  }

  // Of two characters after a percent sign that are not hex digits each still counts: by its
  // low four bits, and nine more when it is above the digit 9.
  lemma AnyDigits(pieces: seq<Piece>, hi: Byte, lo: Byte, signed: bool)
    requires WellFormed(pieces) && BlanksLate(pieces)
    ensures var h, l := hi % 16 + (if Char(hi, signed) > 57 then 9 else 0), lo % 16 + (if Char(lo, signed) > 57 then 9 else 0);
            Unescape(Encode(pieces) + [37, hi, lo], signed) == Meanings(pieces) + [(16 * h + l) % 256]
  {
    var s := [37, hi, lo];
    assert s[3..] == [];
    UnescapeAtEscape(s, signed);
    UnescapeJoin(pieces, s, signed, Decode(s, signed), Encode(pieces) + s);
  }

  // Percent-encoding every byte, in upper or lower case, is undone for every byte string.
  function EscapeAll(data: seq<Byte>, upper: bool): (pieces: seq<Piece>) {
    if data == [] then [] else [Escape(data[0], upper, upper)] + EscapeAll(data[1..], upper)
  }

  lemma {:induction false} EscapeAllMeans(data: seq<Byte>, upper: bool)
    ensures Meanings(EscapeAll(data, upper)) == data && WellFormed(EscapeAll(data, upper)) && BlanksLate(EscapeAll(data, upper))
    decreases |data|
  {
    if data != [] {
      EscapeAllMeans(data[1..], upper);
      assert EscapeAll(data, upper)[1..] == EscapeAll(data[1..], upper);
    }
  }

  lemma RoundTrip(data: seq<Byte>, upper: bool, signed: bool)
    ensures Unescape(Encode(EscapeAll(data, upper)), signed) == data
  {
    EscapeAllMeans(data, upper);
    InvertsExactly(EscapeAll(data, upper), signed);
  }

  // An encoded string has no NUL and no white space in it, so all of it is the C string
  // that the in-place decoder sees.
  lemma {:induction false} EncodeHasNoNul(pieces: seq<Piece>)
    requires WellFormed(pieces)
    ensures forall i | 0 <= i < |Encode(pieces)| :: Encode(pieces)[i] != 0 && !IsSpace(Encode(pieces)[i])
    decreases |pieces|
  {
    if pieces != [] {
      EncodeHasNoNul(pieces[1..]);
    }
  }

  lemma {:induction false} LengthAt(s: seq<Byte>, tail: seq<Byte>)
    requires NoNul(s)
    ensures 0 in s + [0] + tail && Length(s + [0] + tail) == |s|
    decreases |s|
  {
    var buf := s + [0] + tail;
    assert buf[|s|] == 0;
    if s != [] {
      assert buf[1..] == s[1..] + [0] + tail;
      LengthAt(s[1..], tail);
    }
  }

  // The in-place decoder on a buffer with an encoded string: what it leaves is what was
  // encoded exactly when no plus sign for a space comes before the first escape.
  method DecodeEncoded(uri: array<Byte>, signed: bool, ghost pieces: seq<Piece>, ghost tail: seq<Byte>)
    requires WellFormed(pieces) && uri[..] == Encode(pieces) + [0] + tail
    modifies uri
    ensures |pieces| < uri.Length && uri[|pieces|] == 0
    ensures uri[..|pieces|] == Meanings(pieces) <==> BlanksLate(pieces)
    ensures uri[|pieces| + 1..] == old(uri[..])[|pieces| + 1..]
  {
    ghost var s, buf := Encode(pieces), uri[..];
    EncodedString(pieces, tail, s, buf);
    InvertsExactly(pieces, signed);
    UriUnescape(uri, signed);
    Parts(uri[..], Unescape(s, signed), buf);
  }

  lemma EncodedString(pieces: seq<Piece>, tail: seq<Byte>, s: seq<Byte>, buf: seq<Byte>)
    requires WellFormed(pieces) && s == Encode(pieces) && buf == s + [0] + tail
    ensures 0 in buf && buf[..Length(buf)] == s
  {
    EncodeHasNoNul(pieces);
    LengthAt(s, tail);
  }

  lemma Parts(u: seq<Byte>, r: seq<Byte>, buf: seq<Byte>)
    requires |r| < |buf| && u == r + [0] + buf[|r| + 1..]
    ensures |u| == |buf| && u[..|r|] == r && u[|r|] == 0 && u[|r| + 1..] == buf[|r| + 1..]
  {
  }

  // So percent-encoding every byte of any string is undone in place.
  method DecodeEscaped(uri: array<Byte>, signed: bool, ghost data: seq<Byte>, ghost upper: bool, ghost tail: seq<Byte>)
    requires uri[..] == Encode(EscapeAll(data, upper)) + [0] + tail
    modifies uri
    ensures |data| < uri.Length && uri[..|data|] == data && uri[|data|] == 0
  {
    EscapeAllMeans(data, upper);
    DecodeEncoded(uri, signed, EscapeAll(data, upper), tail);
  }
}
