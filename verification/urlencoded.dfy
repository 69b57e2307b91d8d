/** The `application/x-www-form-urlencoded` serializer and parser of the
    URL Standard (section 5), which `URLSearchParams.toString()` and the
    `URLSearchParams(string)` constructor use. */
module FormUrlEncoded {
  import opened Wrappers
  import opened Utf8

  datatype Pair = Pair(name: string, value: string)

  const Amp: byte := 0x26
  const Eq: byte := 0x3D
  const Plus: byte := 0x2B
  const Percent: byte := 0x25
  const Space: byte := 0x20
  const Question: byte := 0x3F

  /** Position of the first `x` in `bs`. */
  function FirstIndex(bs: seq<byte>, x: byte): (r: Option<nat>)
    ensures r.Some? ==> r.value < |bs| && bs[r.value] == x && forall j :: 0 <= j < r.value ==> bs[j] != x
    ensures r.None? <==> x !in bs
  {
    if |bs| == 0 then None
    else if bs[0] == x then Some(0)
    else match FirstIndex(bs[1..], x)
      case None => None
      case Some(i) => Some(i + 1)
  }

  /* ---------------- Serializing ---------------- */

  /** Bytes left as they are: ASCII alphanumerics and `*-._`. */
  predicate IsSafe(b: byte) {
    b == 0x2A || b == 0x2D || b == 0x2E || b == 0x5F
    || (0x30 <= b <= 0x39) || (0x41 <= b <= 0x5A) || (0x61 <= b <= 0x7A)
  }

  /** Upper-case hexadecimal digit. */
  function HexDigit(v: int): (b: byte)
    requires 0 <= v < 16
  {
    if v < 10 then 0x30 + v else 0x41 + (v - 10)
  }

  /** The value of a hexadecimal digit byte, either case. */
  function HexValue(b: byte): (r: Option<int>)
    ensures r.Some? ==> 0 <= r.value < 16
  {
    if 0x30 <= b <= 0x39 then Some(b - 0x30)
    else if 0x41 <= b <= 0x46 then Some(b - 0x41 + 10)
    else if 0x61 <= b <= 0x66 then Some(b - 0x61 + 10)
    else None
  }

  lemma HexRoundTrip(v: int)
    requires 0 <= v < 16
    ensures HexValue(HexDigit(v)) == Some(v)
  {
  }

  /** One byte of the form-urlencoded serialization. */
  function EncodeByte(b: byte): (out: seq<byte>)
    ensures 1 <= |out| <= 3
    ensures forall i :: 0 <= i < |out| ==> out[i] < 0x80 && out[i] != Amp && out[i] != Eq && out[i] != Question
  {
    if IsSafe(b) then [b]
    else if b == Space then [Plus]
    else [Percent, HexDigit(b / 16), HexDigit(b % 16)]
  }

  function EncodeBytes(bs: seq<byte>): (out: seq<byte>)
    ensures forall i :: 0 <= i < |out| ==> out[i] < 0x80 && out[i] != Amp && out[i] != Eq && out[i] != Question
  {
    if |bs| == 0 then [] else EncodeByte(bs[0]) + EncodeBytes(bs[1..])
  }

  function SerializeString(s: string): (out: seq<byte>)
    ensures forall i :: 0 <= i < |out| ==> out[i] < 0x80 && out[i] != Amp && out[i] != Eq && out[i] != Question
  {
    EncodeBytes(Encode(s))
  }

  function PairBytes(p: Pair): (out: seq<byte>)
    ensures Amp !in out && Eq in out && Question !in out
  {
    var out := SerializeString(p.name) + [Eq] + SerializeString(p.value);
    assert out[|SerializeString(p.name)|] == Eq;
    out
  }

  function SerializeBytes(ps: seq<Pair>): (out: seq<byte>)
    ensures forall i :: 0 <= i < |out| ==> out[i] < 0x80 && out[i] != Question
    ensures |out| == 0 <==> |ps| == 0
  {
    if |ps| == 0 then []
    else if |ps| == 1 then PairBytes(ps[0])
    else PairBytes(ps[0]) + [Amp] + SerializeBytes(ps[1..])
  }

  /** `URLSearchParams.toString()`. The output is ASCII and holds no `?`. */
  function Serialize(ps: seq<Pair>): (s: string)
    ensures IsAscii(s)
    ensures forall i :: 0 <= i < |s| ==> s[i] != '?'
    ensures |s| == 0 <==> |ps| == 0
  {
    var bs := SerializeBytes(ps);
    seq(|bs|, i requires 0 <= i < |bs| => bs[i] as char)
  }

  /* ---------------- Parsing ---------------- */

  function PlusToSpace(bs: seq<byte>): (out: seq<byte>)
    ensures |out| == |bs|
    ensures forall i :: 0 <= i < |bs| ==> out[i] == if bs[i] == Plus then Space else bs[i]
  {
    seq(|bs|, i requires 0 <= i < |bs| => if bs[i] == Plus then Space else bs[i])
  }

  /** Percent-decoding: `%` and two hex digits become the byte they name;
      every other byte, a lone `%` included, stays. */
  function PercentDecode(bs: seq<byte>): seq<byte>
    decreases |bs|
  {
    if |bs| == 0 then []
    else if bs[0] == Percent && |bs| >= 3 && HexValue(bs[1]).Some? && HexValue(bs[2]).Some? then
      [HexValue(bs[1]).value * 16 + HexValue(bs[2]).value] + PercentDecode(bs[3..])
    else [bs[0]] + PercentDecode(bs[1..])
  }

  function DecodeComponent(bs: seq<byte>): string {
    Decode(PercentDecode(PlusToSpace(bs)))
  }

  /** One `&`-separated chunk: name up to the first `=`, value after it. */
  function ParsePair(chunk: seq<byte>): Pair {
    match FirstIndex(chunk, Eq)
    case None => Pair(DecodeComponent(chunk), "")
    case Some(i) => Pair(DecodeComponent(chunk[..i]), DecodeComponent(chunk[i + 1..]))
  }

  /** Split on `&`, skip empty chunks, parse the rest. */
  function ParseBytes(bs: seq<byte>): seq<Pair>
    decreases |bs|
  {
    if |bs| == 0 then []
    else match FirstIndex(bs, Amp)
      case None => [ParsePair(bs)]
      case Some(i) => (if i == 0 then [] else [ParsePair(bs[..i])]) + ParseBytes(bs[i + 1..])
  }

  /** The form-urlencoded parser applied to a string's UTF-8 bytes. */
  function Parse(input: string): seq<Pair> {
    ParseBytes(Encode(input))
  }

  /** `new URLSearchParams(init)` for a string: a leading `?` is dropped. */
  function FromString(init: string): seq<Pair> {
    if |init| > 0 && init[0] == '?' then Parse(init[1..]) else Parse(init)
  }

  /* ---------------- Round trip ---------------- */

  lemma PlusToSpaceAppend(a: seq<byte>, b: seq<byte>)
    ensures PlusToSpace(a + b) == PlusToSpace(a) + PlusToSpace(b)
  {
  }

  /** A byte other than `%` decodes to itself. */
  lemma PercentDecodeLiteral(x: byte, rest: seq<byte>)
    requires x != Percent
    ensures PercentDecode([x] + rest) == [x] + PercentDecode(rest)
  {
    assert ([x] + rest)[1..] == rest;
  }

  /** `%` and two hexadecimal digits decode to the byte they name. */
  lemma PercentDecodeTriple(hi: int, lo: int, rest: seq<byte>)
    requires 0 <= hi < 16 && 0 <= lo < 16
    ensures PercentDecode([Percent, HexDigit(hi), HexDigit(lo)] + rest) == [hi * 16 + lo] + PercentDecode(rest)
  {
    HexRoundTrip(hi);
    HexRoundTrip(lo);
    assert ([Percent, HexDigit(hi), HexDigit(lo)] + rest)[3..] == rest;
  }

  /** Decoding reads one encoded byte back and moves on. */
  lemma PercentDecodeStep(b: byte, rest: seq<byte>)
    ensures PercentDecode(PlusToSpace(EncodeByte(b)) + rest) == [b] + PercentDecode(rest)
  {
    var e := PlusToSpace(EncodeByte(b));
    if IsSafe(b) {
      assert e == [b];
      PercentDecodeLiteral(b, rest);
    } else if b == Space {
      assert e == [Space];
      PercentDecodeLiteral(Space, rest);
    } else {
      assert e == [Percent, HexDigit(b / 16), HexDigit(b % 16)];
      PercentDecodeTriple(b / 16, b % 16, rest);
    }
  }

  /** Percent-decoding undoes percent-encoding. */
  lemma {:induction false} PercentDecodeEncode(bs: seq<byte>)
    ensures PercentDecode(PlusToSpace(EncodeBytes(bs))) == bs
  {
    if |bs| > 0 {
      PlusToSpaceAppend(EncodeByte(bs[0]), EncodeBytes(bs[1..]));
      PercentDecodeStep(bs[0], PlusToSpace(EncodeBytes(bs[1..])));
      PercentDecodeEncode(bs[1..]);
    }
  }

  lemma DecodeComponentOfSerialized(s: string)
    ensures DecodeComponent(SerializeString(s)) == s
  {
    PercentDecodeEncode(Encode(s));
    DecodeEncode(s);
  }

  /** A chunk splits at its first `=`. */
  lemma ParsePairSplit(n: seq<byte>, v: seq<byte>)
    requires Eq !in n
    ensures ParsePair(n + [Eq] + v) == Pair(DecodeComponent(n), DecodeComponent(v))
  {
    var out := n + [Eq] + v;
    assert out[|n|] == Eq;
    assert FirstIndex(out, Eq) == Some(|n|);
    assert out[..|n|] == n;
    assert out[|n| + 1..] == v;
  }

  lemma ParsePairOfSerialized(p: Pair)
    ensures ParsePair(PairBytes(p)) == p
  {
    var n := SerializeString(p.name);
    assert Eq !in n;
    ParsePairSplit(n, SerializeString(p.value));
    DecodeComponentOfSerialized(p.name);
    DecodeComponentOfSerialized(p.value);
  }

  /** A non-empty chunk free of `&` followed by `&` parses as one pair. */
  lemma ParseBytesStep(head: seq<byte>, tail: seq<byte>)
    requires |head| > 0 && Amp !in head
    ensures ParseBytes(head + [Amp] + tail) == [ParsePair(head)] + ParseBytes(tail)
  {
    var out := head + [Amp] + tail;
    assert out[|head|] == Amp;
    assert FirstIndex(out, Amp) == Some(|head|);
    assert out[..|head|] == head;
    assert out[|head| + 1..] == tail;
  }

  lemma {:induction false} ParseBytesOfSerialized(ps: seq<Pair>)
    ensures ParseBytes(SerializeBytes(ps)) == ps
  {
    if |ps| == 1 {
      ParsePairOfSerialized(ps[0]);
    } else if |ps| > 1 {
      ParseBytesStep(PairBytes(ps[0]), SerializeBytes(ps[1..]));
      ParsePairOfSerialized(ps[0]);
      ParseBytesOfSerialized(ps[1..]);
    }
  }

  /** Parsing a serialization gives back the very same list. */
  lemma ParseSerialize(ps: seq<Pair>)
    ensures Parse(Serialize(ps)) == ps
    ensures FromString(Serialize(ps)) == ps
  {
    var bs := SerializeBytes(ps);
    var s := Serialize(ps);
    EncodeAscii(s);
    assert Encode(s) == bs;
    ParseBytesOfSerialized(ps);
    if |s| > 0 {
      assert s[0] != '?';
    }
  }

  /** Two lists serialize the same exactly when they are equal. */
  lemma SerializeInjective(a: seq<Pair>, b: seq<Pair>)
    ensures Serialize(a) == Serialize(b) <==> a == b
  {
    if Serialize(a) == Serialize(b) {
      ParseSerialize(a);
      ParseSerialize(b);
    }
  }
}
