/**
 UTF-8 (section 3 of RFC 3629) of text in UTF-16, as a reference for the length limit of keys: the
 encoder of the platform writes a lone surrogate as the replacement character.
 */
module Utf8 {
  import opened Prelude
  import opened JsonText
  import opened Lifecycle

  type Scalar = p: int | 0 <= p < 0x11_0000

  const REPLACEMENT: Scalar := 0xFFFD

  /** The code points of a text. */
  function CodePoints(t: Text): seq<Scalar>
    decreases |t|
  {
    if t == [] then []
    else if |t| >= 2 && IsHigh(t[0]) && IsLow(t[1]) then
      [0x1_0000 + (t[0] - 0xD800) * 0x400 + (t[1] - 0xDC00)] + CodePoints(t[2..])
    else [if IsHigh(t[0]) || IsLow(t[0]) then REPLACEMENT else t[0]] + CodePoints(t[1..])
  }

  /** The octets of one code point. */
  function Encode(p: Scalar): seq<int> {
    if p < 0x80 then [p]
    else if p < 0x800 then [0xC0 + p / 0x40, 0x80 + p % 0x40]
    else if p < 0x1_0000 then [0xE0 + p / 0x1000, 0x80 + p / 0x40 % 0x40, 0x80 + p % 0x40]
    else [0xF0 + p / 0x4_0000, 0x80 + p / 0x1000 % 0x40, 0x80 + p / 0x40 % 0x40, 0x80 + p % 0x40]
  }

  function EncodeAll(ps: seq<Scalar>): seq<int> {
    if ps == [] then [] else Encode(ps[0]) + EncodeAll(ps[1..])
  }

  predicate Tail(octet: int) {
    0x80 <= octet < 0xC0
  }

  /** How many octets the first one announces. */
  function Announced(octet: int): nat {
    if 0 <= octet < 0x80 then 1
    else if 0xC2 <= octet < 0xE0 then 2
    else if 0xE0 <= octet < 0xF0 then 3
    else if 0xF0 <= octet < 0xF5 then 4
    else 0
  }

  /** Reading one code point: the shortest form only. */
  function DecodeOne(octets: seq<int>): Option<(Scalar, seq<int>)> {
    if octets == [] then None
    else
      var n := Announced(octets[0]);
      if n == 0 || |octets| < n || exists i | 0 < i < n :: !Tail(octets[i]) then None
      else
        var p :=
          if n == 1 then octets[0]
          else if n == 2 then (octets[0] - 0xC0) * 0x40 + (octets[1] - 0x80)
          else if n == 3 then ((octets[0] - 0xE0) * 0x40 + (octets[1] - 0x80)) * 0x40 + (octets[2] - 0x80)
          else (((octets[0] - 0xF0) * 0x40 + (octets[1] - 0x80)) * 0x40 + (octets[2] - 0x80)) * 0x40 + (octets[3] - 0x80);
        if p < 0x11_0000 && (n == 3 ==> p >= 0x800) && (n == 4 ==> p >= 0x1_0000) then Some((p, octets[n..])) else None
  }

  /** A code point is read back from its octets, whatever follows. */
  lemma EncodeReadsBack(p: Scalar, rest: seq<int>)
    ensures DecodeOne(Encode(p) + rest) == Some((p, rest))
  {
    var octets := Encode(p) + rest;
    assert octets[|Encode(p)|..] == rest;
    if p < 0x80 {
      assert octets[0] == p;
    } else if p < 0x800 {
      assert octets[0] == 0xC0 + p / 0x40 && octets[1] == 0x80 + p % 0x40;
    } else if p < 0x1_0000 {
      assert octets[0] == 0xE0 + p / 0x1000 && octets[1] == 0x80 + p / 0x40 % 0x40 && octets[2] == 0x80 + p % 0x40;
      assert p / 0x40 == p / 0x1000 * 0x40 + p / 0x40 % 0x40;
    } else {
      LongReadsBack(p, rest);
    }
  }

  lemma LongReadsBack(p: Scalar, rest: seq<int>)
    requires p >= 0x1_0000
    ensures DecodeOne(Encode(p) + rest) == Some((p, rest))
  {
    var octets := Encode(p) + rest;
    assert octets[0] == 0xF0 + p / 0x4_0000 && octets[1] == 0x80 + p / 0x1000 % 0x40;
    assert octets[2] == 0x80 + p / 0x40 % 0x40 && octets[3] == 0x80 + p % 0x40;
    assert octets[4..] == rest;
    assert p / 0x40 == p / 0x1000 * 0x40 + p / 0x40 % 0x40;
    assert p / 0x1000 == p / 0x4_0000 * 0x40 + p / 0x1000 % 0x40;
    hide Encode;
  }

  /** The length the key limit counts is the number of octets of the text's UTF-8. */
  lemma {:induction false} LengthIsUtf8(t: Text)
    ensures Utf8Length(t) == |EncodeAll(CodePoints(t))|
    decreases |t|
  {
    if t != [] {
      var n := if |t| >= 2 && IsHigh(t[0]) && IsLow(t[1]) then 2 else 1;
      LengthIsUtf8(t[n..]);
      assert CodePoints(t)[1..] == CodePoints(t[n..]);
    }
  }
}
