/** UTF-8 text and its segmentation at `/`, as both the message mapping and the router use it. */
module Paths {
  import opened Types

  // ---- UTF-8 (section 4 of RFC 3629) ----

  predicate Continuation(b: Byte) { 0x80 <= b < 0xC0 }

  /** Length of the well-formed scalar value `s` starts with, 0 when there is none. */
  function ScalarLength(s: Bytes): (n: nat)
    ensures n <= |s|
  {
    if |s| == 0 then 0
    else if s[0] < 0x80 then 1
    else if |s| >= 2 && 0xC2 <= s[0] <= 0xDF && Continuation(s[1]) then 2
    else if |s| >= 3 && ThreeByteLead(s[0], s[1]) && Continuation(s[2]) then 3
    else if |s| >= 4 && FourByteLead(s[0], s[1]) && Continuation(s[2]) && Continuation(s[3]) then 4
    else 0
  }

  predicate ThreeByteLead(a: Byte, b: Byte) {
    || (a == 0xE0 && 0xA0 <= b <= 0xBF)
    || (0xE1 <= a <= 0xEC && Continuation(b))
    || (a == 0xED && 0x80 <= b <= 0x9F)
    || (0xEE <= a <= 0xEF && Continuation(b))
  }

  predicate FourByteLead(a: Byte, b: Byte) {
    || (a == 0xF0 && 0x90 <= b <= 0xBF)
    || (0xF1 <= a <= 0xF3 && Continuation(b))
    || (a == 0xF4 && 0x80 <= b <= 0x8F)
  }

  predicate Utf8(s: Bytes)
    decreases |s|
  {
    s == [] || (ScalarLength(s) > 0 && Utf8(s[ScalarLength(s)..]))
  }

  /** The UTF-8 encoding of a Unicode scalar value, by its bits. */
  function Encoded(v: nat): Bytes
    requires v < 0x11_0000
  {
    if v < 0x80 then [v]
    else if v < 0x800 then [0xC0 + v / 0x40, 0x80 + v % 0x40]
    else if v < 0x1_0000 then [0xE0 + v / 0x1000, 0x80 + v / 0x40 % 0x40, 0x80 + v % 0x40]
    else [0xF0 + v / 0x4_0000, 0x80 + v / 0x1000 % 0x40, 0x80 + v / 0x40 % 0x40, 0x80 + v % 0x40]
  }

  /** Unicode scalar values are the code points but the surrogates. */
  predicate IsScalar(v: int) { 0 <= v < 0xD800 || 0xE000 <= v < 0x11_0000 }

  /** The six bits a continuation byte carries. */
  function Bits(b: Byte): int { b as int - 0x80 }

  /** The value that the scalar at the start of s encodes. */
  function Decoded(s: Bytes): int
    requires ScalarLength(s) > 0
  {
    var lead := s[0] as int;
    match ScalarLength(s)
    case 1 => lead
    case 2 => (lead - 0xC0) * 0x40 + Bits(s[1])
    case 3 => ((lead - 0xE0) * 0x40 + Bits(s[1])) * 0x40 + Bits(s[2])
    case _ => (((lead - 0xF0) * 0x40 + Bits(s[1])) * 0x40 + Bits(s[2])) * 0x40 + Bits(s[3])
  }

  lemma EncodedIsRecognised(v: nat, rest: Bytes)
    requires IsScalar(v)
    ensures ScalarLength(Encoded(v) + rest) == |Encoded(v)| > 0
  {
    var s, n := Encoded(v) + rest, |Encoded(v)|;
    assert forall i :: 0 <= i < n ==> s[i] == Encoded(v)[i];
  }

  /** Taking one base-64 digit off. */
  lemma LastDigit(a: nat, b: nat)
    requires b < 0x40
    ensures (a * 0x40 + b) / 0x40 == a && (a * 0x40 + b) % 0x40 == b
  {
  }

  lemma DigitsOfThree(a: nat, b: nat, c: nat)
    requires b < 0x40 && c < 0x40
    ensures var v := (a * 0x40 + b) * 0x40 + c; v / 0x1000 == a && v / 0x40 % 0x40 == b && v % 0x40 == c
  {
    LastDigit(a * 0x40 + b, c);
    LastDigit(a, b);
    assert ((a * 0x40 + b) * 0x40 + c) / 0x1000 == ((a * 0x40 + b) * 0x40 + c) / 0x40 / 0x40;
  }

  lemma DigitsOfFour(a: nat, b: nat, c: nat, d: nat)
    requires b < 0x40 && c < 0x40 && d < 0x40
    ensures var v := ((a * 0x40 + b) * 0x40 + c) * 0x40 + d;
      v / 0x4_0000 == a && v / 0x1000 % 0x40 == b && v / 0x40 % 0x40 == c && v % 0x40 == d
  {
    var u := (a * 0x40 + b) * 0x40 + c;
    var v := u * 0x40 + d;
    LastDigit(u, d);
    DigitsOfThree(a, b, c);
    assert v / 0x4_0000 == v / 0x40 / 0x1000 && v / 0x1000 == v / 0x40 / 0x40;
  }

  lemma TwoBytes(s: Bytes)
    requires ScalarLength(s) == 2
    ensures IsScalar(Decoded(s)) && s[..2] == Encoded(Decoded(s))
  {
    LastDigit(s[0] as int - 0xC0, Bits(s[1]));
  }

  lemma ThreeBytes(s: Bytes)
    requires ScalarLength(s) == 3
    ensures IsScalar(Decoded(s)) && s[..3] == Encoded(Decoded(s))
  {
    var a, b, c := s[0] as int - 0xE0, Bits(s[1]), Bits(s[2]);
    var v := Decoded(s);
    assert v == (a * 0x40 + b) * 0x40 + c && 0x800 <= v < 0x1_0000 && IsScalar(v);
    DigitsOfThree(a, b, c);
    hide ScalarLength, Decoded, ThreeByteLead;
    assert s[..3] == [0xE0 + a, 0x80 + b, 0x80 + c];
  }

  lemma FourBytes(s: Bytes)
    requires ScalarLength(s) == 4
    ensures IsScalar(Decoded(s)) && s[..4] == Encoded(Decoded(s))
  {
    var a, b, c, d := s[0] as int - 0xF0, Bits(s[1]), Bits(s[2]), Bits(s[3]);
    var v := Decoded(s);
    assert v == ((a * 0x40 + b) * 0x40 + c) * 0x40 + d && 0x1_0000 <= v < 0x11_0000;
    DigitsOfFour(a, b, c, d);
    hide ScalarLength, Decoded, FourByteLead;
    assert s[..4] == [0xF0 + a, 0x80 + b, 0x80 + c, 0x80 + d];
  }

  lemma RecognisedIsEncoded(s: Bytes)
    requires ScalarLength(s) > 0
    ensures IsScalar(Decoded(s)) && s[..ScalarLength(s)] == Encoded(Decoded(s))
  {
    match ScalarLength(s)
    case 2 => TwoBytes(s);
    case 3 => ThreeBytes(s);
    case 4 => FourBytes(s);
    case _ =>
      hide Continuation, ThreeByteLead, FourByteLead;
  }

  function EncodedAll(values: seq<nat>): Bytes
    requires forall v :: v in values ==> IsScalar(v)
  {
    if values == [] then []
    else
      assert IsScalar(values[0]);
      Encoded(values[0]) + EncodedAll(values[1..])
  }

  ghost predicate Encodes(values: seq<nat>, s: Bytes) {
    (forall v :: v in values ==> IsScalar(v)) && EncodedAll(values) == s
  }

  lemma {:induction false} EncodedAllIsUtf8(values: seq<nat>)
    requires forall v :: v in values ==> IsScalar(v)
    ensures Utf8(EncodedAll(values))
    decreases |values|
  {
    if values != [] {
      var rest := EncodedAll(values[1..]);
      EncodedAllIsUtf8(values[1..]);
      assert values[0] in values;
      EncodedIsRecognised(values[0], rest);
      hide ScalarLength, Encoded;
      assert (Encoded(values[0]) + rest)[|Encoded(values[0])|..] == rest;
    }
  }

  lemma {:induction false} Utf8IsEncodedAll(s: Bytes) returns (values: seq<nat>)
    requires Utf8(s)
    ensures Encodes(values, s)
    decreases |s|
  {
    values := [];
    if s != [] {
      var n := ScalarLength(s);
      var rest := Utf8IsEncodedAll(s[n..]);
      RecognisedIsEncoded(s);
      hide ScalarLength, Encoded, Decoded;
      values := [Decoded(s)] + rest;
      assert values[1..] == rest && s == s[..n] + s[n..];
    }
  }

  /** Text is well-formed if and only if it is the encoding of some sequence of Unicode scalar values. */
  lemma Utf8Iff(s: Bytes)
    ensures Utf8(s) <==> exists values :: Encodes(values, s)
  {
    if Utf8(s) {
      var values := Utf8IsEncodedAll(s);
    }
    if values :| Encodes(values, s) {
      EncodedAllIsUtf8(values);
    }
  }

  /** Cutting well-formed text at a slash leaves well-formed text on both sides. */
  lemma {:induction false} Utf8AroundSlash(a: Bytes, b: Bytes)
    requires Utf8(a + [SLASH] + b)
    ensures Utf8(a) && Utf8(b)
    decreases |a|
  {
    var s := a + [SLASH] + b;
    var n := ScalarLength(s);
    if a == [] {
      assert s[n..] == b;
    } else {
      assert s[0] == a[0];
      assert s[|a|] == SLASH;
      assert n <= |a|;
      assert forall i :: 0 <= i < n ==> s[i] == a[i];
      assert ScalarLength(a) == n;
      assert s[n..] == a[n..] + [SLASH] + b;
      Utf8AroundSlash(a[n..], b);
    }
  }

  // ---- Splitting and joining ----

  predicate SlashFree(s: Text) { SLASH !in s }

  function FirstSlash(s: Text): (i: nat)
    ensures i <= |s| && SlashFree(s[..i])
    ensures i < |s| ==> s[i] == SLASH
  {
    if s == [] || s[0] == SLASH then 0
    else
      var i := 1 + FirstSlash(s[1..]);
      assert s[..i] == [s[0]] + s[1..][..i - 1];
      i
  }

  /** `str::split('/')`: n slashes give n + 1 pieces, some of them empty. */
  function Split(s: Text): (pieces: seq<Text>)
    ensures |pieces| >= 1
    ensures forall x :: x in pieces ==> SlashFree(x)
    decreases |s|
  {
    var i := FirstSlash(s);
    if i == |s| then
      assert s[..i] == s;
      [s]
    else
      [s[..i]] + Split(s[i + 1..])
  }

  function NonEmpty(pieces: seq<Text>): (r: seq<Text>)
    ensures forall x :: x in r <==> x in pieces && x != []
  {
    if pieces == [] then []
    else if pieces[0] == [] then NonEmpty(pieces[1..])
    else [pieces[0]] + NonEmpty(pieces[1..])
  }

  /** `path.split('/').filter(|s| !s.is_empty())`. */
  function Segments(path: Text): (r: seq<Text>)
    ensures forall x :: x in r ==> x != [] && SlashFree(x)
  {
    NonEmpty(Split(path))
  }

  /** `segments.join("/")`. */
  function Join(pieces: seq<Text>): Text {
    if pieces == [] then []
    else if |pieces| == 1 then pieces[0]
    else pieces[0] + [SLASH] + Join(pieces[1..])
  }

  /** The path `from_packet` rebuilds: a leading slash and the segments joined by slashes. */
  function Normal(segments: seq<Text>): Text { [SLASH] + Join(segments) }

  lemma {:induction false} SplitAtSlash(a: Text, b: Text)
    requires SlashFree(a)
    ensures Split(a + [SLASH] + b) == [a] + Split(b)
  {
    var s := a + [SLASH] + b;
    var i := FirstSlash(s);
    assert s[|a|] == SLASH;
    assert forall k :: 0 <= k < |a| ==> s[k] in a;
    assert i <= |a|;
    assert s[..i] == a && s[i + 1..] == b;
  }

  lemma {:induction false} SplitSlashFree(a: Text)
    requires SlashFree(a)
    ensures Split(a) == [a]
  {
    var i := FirstSlash(a);
    assert forall k :: 0 <= k < |a| ==> a[k] in a;
    assert i == |a|;
  }

  /** Splitting undoes joining. */
  lemma {:induction false} SplitJoin(pieces: seq<Text>)
    requires |pieces| >= 1 && forall x :: x in pieces ==> SlashFree(x)
    ensures Split(Join(pieces)) == pieces
    decreases |pieces|
  {
    if |pieces| == 1 {
      SplitSlashFree(pieces[0]);
    } else {
      SplitJoin(pieces[1..]);
      SplitAtSlash(pieces[0], Join(pieces[1..]));
    }
  }

  lemma {:induction false} NonEmptyKeepsAll(pieces: seq<Text>)
    requires [] !in pieces
    ensures NonEmpty(pieces) == pieces
    decreases |pieces|
  {
    if pieces != [] { NonEmptyKeepsAll(pieces[1..]); }
  }

  /** Normalising keeps the segments, so a path and its normal form route alike. */
  lemma {:induction false} SegmentsOfNormal(segments: seq<Text>)
    requires forall x :: x in segments ==> x != [] && SlashFree(x)
    ensures Segments(Normal(segments)) == segments
  {
    SplitAtSlash([], Join(segments));
    assert [] + [SLASH] + Join(segments) == Normal(segments);
    var rest := Split(Join(segments));
    assert ([[]] + rest)[1..] == rest;
    if segments == [] {
      SplitSlashFree([]);
      assert NonEmpty(rest) == [];
    } else {
      SplitJoin(segments);
      NonEmptyKeepsAll(segments);
    }
  }

  /** A path without a slash is one segment, or none. */
  lemma SegmentsSlashFree(a: Text)
    requires SlashFree(a)
    ensures Segments(a) == if a == [] then [] else [a]
  {
    SplitSlashFree(a);
    var pieces := [a];
    assert pieces[1..] == [] && NonEmpty(pieces) == if a == [] then [] else [a];
  }

  /** A path is cut at its first slash; what is before it is its first segment, if not empty. */
  lemma SegmentsAtSlash(a: Text, b: Text)
    requires SlashFree(a)
    ensures Segments(a + [SLASH] + b) == (if a == [] then [] else [a]) + Segments(b)
  {
    SplitAtSlash(a, b);
    assert ([a] + Split(b))[1..] == Split(b);
  }

  /** A leading slash makes no difference. */
  lemma LeadingSlash(path: Text)
    ensures Segments([SLASH] + path) == Segments(path)
  {
    SegmentsAtSlash([], path);
    assert [] + [SLASH] + path == [SLASH] + path;
    assert [] + Segments(path) == Segments(path);
  }

  /** Each piece with a slash before it. */
  function Slashed(pieces: seq<Text>): Text {
    if pieces == [] then [] else [SLASH] + pieces[0] + Slashed(pieces[1..])
  }

  /** The rebuilt path is each segment with a slash before it, or a slash alone. */
  lemma {:induction false} NormalIsSlashed(pieces: seq<Text>)
    ensures Normal(pieces) == if pieces == [] then [SLASH] else Slashed(pieces)
    decreases |pieces|
  {
    if |pieces| == 1 {
      assert pieces[1..] == [];
    } else if |pieces| > 1 {
      NormalIsSlashed(pieces[1..]);
      assert [SLASH] + (pieces[0] + [SLASH] + Join(pieces[1..])) == [SLASH] + pieces[0] + ([SLASH] + Join(pieces[1..]));
    }
  }

  lemma {:induction false} Utf8Split(s: Text)
    requires Utf8(s)
    ensures forall x :: x in Split(s) ==> Utf8(x)
    decreases |s|
  {
    var i := FirstSlash(s);
    if i < |s| {
      assert s == s[..i] + [SLASH] + s[i + 1..];
      Utf8AroundSlash(s[..i], s[i + 1..]);
      Utf8Split(s[i + 1..]);
    }
  }

  /** Every segment of well-formed text is itself well-formed. */
  lemma Utf8Segments(path: Text)
    requires Utf8(path)
    ensures forall x :: x in Segments(path) ==> Utf8(x)
  {
    Utf8Split(path);
  }
}
