/** Base 64 encoding (section 4 of RFC 4648). */
module Base64 {
  type Byte = b: int | 0 <= b < 256
  type Sextet = b: int | 0 <= b < 64

  const UPPER := "ABCDEFGHIJKLM" + "NOPQRSTUVWXYZ"
  const LOWER := "abcdefghijklm" + "nopqrstuvwxyz"
  const LOOKUP: string := UPPER + LOWER + "0123456789+/"

  function Letter(v: Sextet): char {
    if v < 26 then (v + 'A' as int) as char
    else if v < 52 then (v - 26 + 'a' as int) as char
    else if v < 62 then (v - 52 + '0' as int) as char
    else if v == 62 then '+' else '/'
  }

  /** The table holds the alphabet of section 4, in order. */
  lemma TableIs(v: Sextet)
    ensures |LOOKUP| == 64 && LOOKUP[v] == Letter(v)
  {
    assert v < 13 ==> LOOKUP[v] == "ABCDEFGHIJKLM"[v];
    assert 13 <= v < 26 ==> LOOKUP[v] == "NOPQRSTUVWXYZ"[v - 13];
    assert 26 <= v < 39 ==> LOOKUP[v] == "abcdefghijklm"[v - 26];
    assert 39 <= v < 52 ==> LOOKUP[v] == "nopqrstuvwxyz"[v - 39];
    assert 52 <= v ==> LOOKUP[v] == "0123456789+/"[v - 52];
  }

  function Value(c: char): (v: int)
    ensures -1 <= v < 64
  {
    if 'A' <= c <= 'Z' then c as int - 'A' as int
    else if 'a' <= c <= 'z' then c as int - 'a' as int + 26
    else if '0' <= c <= '9' then c as int - '0' as int + 52
    else if c == '+' then 62 else if c == '/' then 63 else -1
  }

  // ----- what the standard says -----

  /** Three bytes at a time as four letters; one or two left over are filled up with zero bits and pads. */
  function Encode(s: seq<Byte>): string {
    if |s| == 0 then ""
    else if |s| == 1 then [Letter(s[0] / 4), Letter(s[0] % 4 * 16), '=', '=']
    else if |s| == 2 then [Letter(s[0] / 4), Letter(s[0] % 4 * 16 + s[1] / 16), Letter(s[1] % 16 * 4), '=']
    else Quad(s[0], s[1], s[2]) + Encode(s[3..])
  }

  function Quad(a: Byte, b: Byte, c: Byte): string {
    [Letter(a / 4), Letter(a % 4 * 16 + b / 16), Letter(b % 16 * 4 + c / 64), Letter(c % 64)]
  }

  datatype Decoded = Invalid | Bytes(bytes: seq<Byte>)

  function Join(a: seq<Byte>, d: Decoded): Decoded {
    if d.Bytes? then Bytes(a + d.bytes) else Invalid
  }

  /** A strict decoder: groups of four, pads at the very end only, unused bits zero. */
  function Decode(t: string): Decoded {
    if |t| == 0 then Bytes([])
    else if |t| < 4 then Invalid
    else
      var (p, q, r, s) := (Value(t[0]), Value(t[1]), Value(t[2]), Value(t[3]));
      if p < 0 || q < 0 then Invalid
      else if t[2] == '=' then
        if t[3] == '=' && |t| == 4 && q % 16 == 0 then Bytes([p * 4 + q / 16]) else Invalid
      else if r < 0 then Invalid
      else if t[3] == '=' then
        if |t| == 4 && r % 4 == 0 then Bytes([p * 4 + q / 16, q % 16 * 16 + r / 4]) else Invalid
      else if s < 0 then Invalid
      else Join([p * 4 + q / 16, q % 16 * 16 + r / 4, r % 4 * 64 + s], Decode(t[4..]))
  }

  lemma LetterValue(v: Sextet)
    ensures Value(Letter(v)) == v && Letter(v) != '='
  {
  }

  lemma ValueLetter(c: char)
    requires Value(c) >= 0
    ensures Letter(Value(c)) == c
  {
  }

  lemma QuadValues(a: Byte, b: Byte, c: Byte)
    ensures var (p, q, r, s) := (a / 4, a % 4 * 16 + b / 16, b % 16 * 4 + c / 64, c % 64);
      p < 64 && q < 64 && r < 64 && p * 4 + q / 16 == a && q % 16 * 16 + r / 4 == b && r % 4 * 64 + s == c
  {
  }

  lemma DecodeQuad(a: Byte, b: Byte, c: Byte, t: string)
    ensures Decode(Quad(a, b, c) + t) == Join([a, b, c], Decode(t))
  {
    hide Letter, Value;
    QuadValues(a, b, c);
    LetterValue(a / 4);
    LetterValue(a % 4 * 16 + b / 16);
    LetterValue(b % 16 * 4 + c / 64);
    LetterValue(c % 64);
    assert (Quad(a, b, c) + t)[4..] == t;
  }

  /** Decoding recovers every byte sequence. */
  lemma {:induction false} DecodeEncode(s: seq<Byte>)
    ensures Decode(Encode(s)) == Bytes(s)
  {
    hide Letter, Value, Quad;
    if |s| == 1 {
      DecodeOne(s[0]);
      assert s == [s[0]];
    } else if |s| == 2 {
      DecodeTwo(s[0], s[1]);
      assert s == [s[0], s[1]];
    } else if |s| > 2 {
      DecodeQuad(s[0], s[1], s[2], Encode(s[3..]));
      DecodeEncode(s[3..]);
      assert [s[0], s[1], s[2]] + s[3..] == s;
    }
  }

  lemma DecodeOne(a: Byte)
    ensures Decode([Letter(a / 4), Letter(a % 4 * 16), '=', '=']) == Bytes([a])
  {
    hide Letter, Value;
    LetterValue(a / 4);
    LetterValue(a % 4 * 16);
    QuadValues(a, 0, 0);
  }

  lemma DecodeTwo(a: Byte, b: Byte)
    ensures a % 4 * 16 + b / 16 < 64
    ensures Decode([Letter(a / 4), Letter(a % 4 * 16 + b / 16), Letter(b % 16 * 4), '=']) == Bytes([a, b])
  {
    hide Letter, Value;
    QuadValues(a, b, 0);
    LetterValue(a / 4);
    LetterValue(a % 4 * 16 + b / 16);
    LetterValue(b % 16 * 4);
  }

  lemma SplitBack(p: Sextet, q: Sextet, r: Sextet, s: Sextet)
    ensures var (a, b, c) := (p * 4 + q / 16, q % 16 * 16 + r / 4, r % 4 * 64 + s);
      a < 256 && b < 256 && c < 256 && a / 4 == p && a % 4 * 16 + b / 16 == q && b % 16 * 4 + c / 64 == r && c % 64 == s
  {
  }

  lemma EncodeQuad(t: string)
    requires |t| >= 4 && forall i :: 0 <= i < 4 ==> Value(t[i]) >= 0
    ensures var (p, q, r, s) := (Value(t[0]), Value(t[1]), Value(t[2]), Value(t[3]));
      && p * 4 + q / 16 < 256 && q % 16 * 16 + r / 4 < 256 && r % 4 * 64 + s < 256
      && Quad(p * 4 + q / 16, q % 16 * 16 + r / 4, r % 4 * 64 + s) == t[..4]
  {
    hide Letter, Value;
    SplitBack(Value(t[0]), Value(t[1]), Value(t[2]), Value(t[3]));
    ValueLetter(t[0]);
    ValueLetter(t[1]);
    ValueLetter(t[2]);
    ValueLetter(t[3]);
  }

  /** And it accepts nothing but encodings: encoding what was decoded gives the text back. */
  lemma {:induction false} EncodeDecode(t: string)
    requires Decode(t).Bytes?
    ensures Encode(Decode(t).bytes) == t
  {
    hide Letter, Value, Quad;
    if |t| > 0 {
      var (p, q, r, s) := (Value(t[0]), Value(t[1]), Value(t[2]), Value(t[3]));
      ValueLetter(t[0]);
      ValueLetter(t[1]);
      if t[2] == '=' {
        SplitBack(p, q, 0, 0);
      } else {
        ValueLetter(t[2]);
        if t[3] == '=' {
          SplitBack(p, q, r, 0);
        } else {
          EncodeQuad(t);
          EncodeDecode(t[4..]);
          assert Decode(t).bytes[3..] == Decode(t[4..]).bytes;
          assert t[..4] + t[4..] == t;
        }
      }
    }
  }

  /** Four letters for every three bytes, rounded up. */
  lemma {:induction false} EncodedLength(s: seq<Byte>)
    ensures |Encode(s)| == (|s| + 2) / 3 * 4
  {
    hide Letter, Value;
    if |s| > 2 {
      EncodedLength(s[3..]);
      assert |Encode(s)| == 4 + |Encode(s[3..])|;
    } else {
      assert |Encode(s)| == if |s| == 0 then 0 else 4;
    }
  }

  lemma {:induction false} EncodedFours(s: seq<Byte>)
    ensures |Encode(s)| % 4 == 0
  {
    hide Letter;
    if |s| > 2 {
      EncodedFours(s[3..]);
      assert |Quad(s[0], s[1], s[2])| == 4;
    }
  }

  // ----- the encoder -----

  /** What a 32-bit `int` holds. */
  function Wrap(x: int): int { (x + 0x8000_0000) % 0x1_0000_0000 - 0x8000_0000 }

  /** `(val >> bits) & 0x3F`, with an arithmetic shift. */
  function Pick(val: int, bits: nat): Sextet
    requires bits <= 6
  {
    val / Power(bits) % 64
  }

  function Power(bits: nat): nat
    requires bits <= 8
  {
    [1, 2, 4, 8, 16, 32, 64, 128, 256][bits]
  }

  /** Letters of a group that is not complete. */
  function Partial(s: seq<Byte>): string
    requires |s| <= 2
  {
    if |s| == 0 then "" else if |s| == 1 then [Letter(s[0] / 4)]
    else [Letter(s[0] / 4), Letter(s[0] % 4 * 16 + s[1] / 16)]
  }

  lemma {:induction false} EncodeGroups(s: seq<Byte>, t: seq<Byte>)
    requires |s| % 3 == 0
    ensures Encode(s + t) == Encode(s) + Encode(t)
  {
    hide Letter, Quad;
    if |s| == 0 {
      assert s + t == t;
    } else {
      assert (s + t)[3..] == s[3..] + t;
      EncodeGroups(s[3..], t);
    }
  }

  lemma Low(x: int, k: int, r: int)
    requires 0 <= r < 4096 && x == k * 4096 + r
    ensures x % 4096 == r
  {
  }

  lemma WrapLow(x: int)
    ensures Wrap(x) % 4096 == x % 4096
  {
    var q := (x + 0x8000_0000) / 0x1_0000_0000;
    var k, r := x / 4096, x % 4096;
    Low(Wrap(x), k - q * 0x10_0000, r);
  }

  lemma AccumulatorLow(val: int, c: Byte)
    ensures Wrap(val * 256 + c) % 4096 == val % 16 * 256 + c
  {
    hide Wrap;
    WrapLow(val * 256 + c);
    Low(val * 256 + c, val / 16, val % 16 * 256 + c);
  }

  lemma Euclid(x: int, m: int, q: int, r: int)
    requires 0 <= r < m && x == q * m + r
    ensures x / m == q && x % m == r
  {
    var d := x / m - q;
    assert d * m == r - x % m;
    assert d >= 1 ==> d * m >= m;
    assert d <= -1 ==> d * m <= -m;
  }

  /** What the low twelve bits say about a pick. */
  lemma PickLow(w: int, bits: nat, low: nat)
    requires w % 4096 == low && bits in {0, 2, 4, 6}
    ensures Pick(w, bits) == low / Power(bits) % 64
  {
    var q := w / 4096;
    if bits == 0 {
      TwoSteps(w, 1, 64, q, low);
    } else if bits == 2 {
      TwoSteps(w, 4, 16, q, low);
    } else if bits == 4 {
      TwoSteps(w, 16, 4, q, low);
    } else {
      TwoSteps(w, 64, 1, q, low);
    }
  }

  lemma TwoSteps(w: int, p: int, k: int, q: int, low: nat)
    requires p > 0 && p * k == 64 && w == q * 4096 + low
    ensures w / p % 64 == low / p % 64
  {
    var l := low / p;
    assert q * 4096 == q * 64 * k * p;
    assert (q * 64 * k + l) * p == q * 64 * k * p + l * p;
    Euclid(w, p, q * 64 * k + l, low % p);
    assert q * 64 * k + l == (q * k + l / 64) * 64 + l % 64;
    Euclid(q * 64 * k + l, 64, q * k + l / 64, l % 64);
  }

  lemma SameLow(w: int, low: nat)
    requires w % 4096 == low
    ensures w % 4 == low % 4 && w % 16 == low % 16
  {
    var q := w / 4096;
    Euclid(w, 4, q * 1024 + low / 4, low % 4);
    Euclid(w, 16, q * 256 + low / 16, low % 16);
  }

  /** Only the low bits still to be written matter, so what is lost at the top of the accumulator does not. */
  lemma LowBits(val: int, c: Byte)
    ensures var w := Wrap(val * 256 + c);
      && Pick(w, 2) == c / 4 && w % 4 == c % 4 && w % 16 == c % 16
      && Pick(w, 4) == val % 4 * 16 + c / 16
      && Pick(w, 6) == val % 16 * 4 + c / 64 && Pick(w, 0) == c % 64
  {
    hide Wrap, Pick;
    AccumulatorLow(val, c);
    var w, low := Wrap(val * 256 + c), val % 16 * 256 + c;
    PickLow(w, 0, low);
    PickLow(w, 2, low);
    PickLow(w, 4, low);
    PickLow(w, 6, low);
    SameLow(w, low);
    LowDivides(val % 16, c);
    Mod4(val);
  }

  lemma Mod4(val: int)
    ensures val % 16 % 4 == val % 4
  {
  }

  lemma LowDivides(h: nat, c: Byte)
    requires h < 16
    ensures var low := h * 256 + c;
      && low / 4 % 64 == c / 4 && low / 16 % 64 == h % 4 * 16 + c / 16 && low / 64 % 64 == h * 4 + c / 64
      && low % 64 == c % 64 && low % 4 == c % 4 && low % 16 == c % 16
  {
    var low := h * 256 + c;
    Euclid(low, 4, h * 64 + c / 4, c % 4);
    Euclid(h * 64 + c / 4, 64, h, c / 4);
    Euclid(low, 16, h * 16 + c / 16, c % 16);
    Euclid(h * 16 + c / 16, 64, h / 4, h % 4 * 16 + c / 16);
    Euclid(low, 64, h * 4 + c / 64, c % 64);
  }

  /** The last letter of an incomplete group: the pending bits, followed by zeros. */
  lemma LastBits(val: int)
    ensures Pick(Wrap(val * 256), 4) == val % 4 * 16 && Pick(Wrap(val * 256), 6) == val % 16 * 4
  {
    LowBits(val, 0);
  }

  /** Where the encoder stands after `done`: whole groups written, and what is pending in the accumulator. */
  ghost predicate Written(done: seq<Byte>, out: string, val: int, valb: int) {
    var r := |done| % 3;
    var g := |done| - r;
    && out == Encode(done[..g]) + Partial(done[g..])
    && valb == 2 * r - 6
    && (r > 0 ==> val % 4 == done[|done| - 1] % 4 && val % 16 == done[|done| - 1] % 16)
  }

  /** One turn for byte `c`: the letters its bits complete. */
  lemma OneMore(done: seq<Byte>, c: Byte, out: string, val: int, valb: int)
    requires Written(done, out, val, valb)
    ensures var w, b := Wrap(val * 256 + c), valb + 8;
      && b in {2, 4, 6}
      && (b < 6 ==> Written(done + [c], out + [Letter(Pick(w, b))], w, b - 6))
      && (b == 6 ==> Written(done + [c], out + [Letter(Pick(w, 6)), Letter(Pick(w, 0))], w, -6))
  {
    hide Letter, Wrap, Pick, Encode, Partial;
    LowBits(val, c);
    var r := |done| % 3;
    var g := |done| - r;
    var more := done + [c];
    if r < 2 {
      assert more[..g] == done[..g] && more[g..] == done[g..] + [c];
      PartialGrows(done[g..], c);
    } else {
      var (a, b) := (done[g], done[g + 1]);
      assert more[..g + 3] == done[..g] + [a, b, c] && more[g + 3..] == [];
      assert done[g..] == [a, b];
      EncodeGroups(done[..g], [a, b, c]);
      OneGroup(a, b, c);
      GroupEnds(Encode(done[..g]), a, b, c);
    }
  }

  lemma PartialGrows(s: seq<Byte>, c: Byte)
    requires |s| < 2
    ensures |s| == 0 ==> Partial(s) + [Letter(c / 4)] == Partial(s + [c])
    ensures |s| == 1 ==> Partial(s) + [Letter(s[0] % 4 * 16 + c / 16)] == Partial(s + [c])
  {
    hide Letter;
  }

  lemma GroupEnds(out: string, a: Byte, b: Byte, c: Byte)
    ensures var u, v := b % 16 * 4 + c / 64, c % 64;
      out + Partial([a, b]) + [Letter(u), Letter(v)] == out + Encode([a, b, c]) + Partial([])
  {
    hide Letter, Encode;
    OneGroup(a, b, c);
  }

  lemma OneGroup(a: Byte, b: Byte, c: Byte)
    ensures Encode([a, b, c]) ==
      [Letter(a / 4), Letter(a % 4 * 16 + b / 16), Letter(b % 16 * 4 + c / 64), Letter(c % 64)]
  {
    assert [a, b, c][3..] == [];
  }

  /** What is left to write at the end. */
  lemma AtTheEnd(s: seq<Byte>, out: string, val: int, valb: int)
    requires Written(s, out, val, valb)
    ensures valb == -6 ==> out == Encode(s) && |out| % 4 == 0
    ensures valb == -4 ==> out + [Letter(Pick(Wrap(val * 256), 4))] + "==" == Encode(s) && |out| % 4 == 1
    ensures valb == -2 ==> out + [Letter(Pick(Wrap(val * 256), 6))] + "=" == Encode(s) && |out| % 4 == 2
    ensures valb in {-6, -4, -2}
  {
    hide Letter, Wrap, Pick, Encode, Partial, Written;
    LastBits(val);
    var groups, tail := EndParts(s, out, val, valb);
    LeftOver(tail);
    Remainder(|groups|, |Partial(tail)|);
    if |tail| > 0 {
      var last := if |tail| == 1 then Letter(Pick(Wrap(val * 256), 4)) else Letter(Pick(Wrap(val * 256), 6));
      Regroup(groups, Partial(tail), [last], if |tail| == 1 then "==" else "=");
    }
  }

  /** The whole groups, and the bytes behind them. */
  lemma EndParts(s: seq<Byte>, out: string, val: int, valb: int) returns (groups: string, tail: seq<Byte>)
    requires Written(s, out, val, valb)
    ensures |tail| < 3 && valb == 2 * |tail| - 6
    ensures Encode(s) == groups + Encode(tail) && out == groups + Partial(tail) && |groups| % 4 == 0
    ensures |tail| > 0 ==> val % 4 == tail[|tail| - 1] % 4 && val % 16 == tail[|tail| - 1] % 16
  {
    hide Encode, Partial;
    var g := |s| - |s| % 3;
    groups, tail := Encode(s[..g]), s[g..];
    EncodeSplits(s);
    if |tail| > 0 {
      assert tail[|tail| - 1] == s[|s| - 1];
    }
  }

  lemma Regroup(a: string, b: string, c: string, d: string)
    ensures a + b + c + d == a + (b + c + d)
  {
  }

  lemma Remainder(a: nat, b: nat)
    requires a % 4 == 0 && b < 4
    ensures (a + b) % 4 == b
  {
  }

  lemma EncodeSplits(s: seq<Byte>)
    ensures var g := |s| - |s| % 3;
      Encode(s) == Encode(s[..g]) + Encode(s[g..]) && |Encode(s[..g])| % 4 == 0 && |s[g..]| == |s| % 3
  {
    hide Encode;
    var g := |s| - |s| % 3;
    EncodedFours(s[..g]);
    EncodeGroups(s[..g], s[g..]);
    assert s[..g] + s[g..] == s;
  }

  lemma LeftOver(s: seq<Byte>)
    requires |s| < 3
    ensures |s| == 0 ==> Partial(s) == Encode(s) == ""
    ensures |s| == 1 ==> |Partial(s)| == 1 && Partial(s) + [Letter(s[0] % 4 * 16)] + "==" == Encode(s)
    ensures |s| == 2 ==> |Partial(s)| == 2 && Partial(s) + [Letter(s[1] % 16 * 4)] + "=" == Encode(s)
  {
    hide Letter;
  }

  /** `base64_encode` is the standard's encoding, for every input, with a 32-bit accumulator that overflows. */
  method Base64Encode(input: seq<Byte>) returns (out: string)
    ensures out == Encode(input)
  {
    hide Written, Encode, Letter, Wrap, Pick;
    out := "";
    var val, valb := 0, -6;
    StartWritten();
    for i := 0 to |input|
      invariant Written(input[..i], out, val, valb)
    {
      OneMore(input[..i], input[i], out, val, valb);
      assert input[..i + 1] == input[..i] + [input[i]];
      ghost var before := out;
      val := Wrap(val * 256 + input[i]);
      valb := valb + 8;
      while valb >= 0
        invariant valb in {-6, -4, -2, 0, 2, 4, 6}
        invariant valb < 0 ==> Written(input[..i + 1], out, val, valb)
        invariant valb == 0 ==> Written(input[..i + 1], out + [Letter(Pick(val, 0))], val, -6)
        invariant valb in {2, 4} ==> Written(input[..i + 1], out + [Letter(Pick(val, valb))], val, valb - 6)
        invariant valb == 6 ==> Written(input[..i + 1], out + [Letter(Pick(val, 6)), Letter(Pick(val, 0))], val, -6)
        decreases valb
      {
        TableIs(Pick(val, valb));
        assert valb == 6 ==>
          out + [Letter(Pick(val, 6))] + [Letter(Pick(val, 0))] == out + [Letter(Pick(val, 6)), Letter(Pick(val, 0))];
        out := out + [LOOKUP[Pick(val, valb)]];
        valb := valb - 6;
      }
    }
    assert input[..|input|] == input;
    AtTheEnd(input, out, val, valb);
    if valb > -6 {
      var last := Pick(Wrap(val * 256), valb + 8);
      TableIs(last);
      out := out + [LOOKUP[last]];
    }
    Pads(input, out);
    while |out| % 4 != 0
      invariant Padding(out, Encode(input))
      decreases |Encode(input)| - |out|
    {
      out := out + "=";
    }
  }

  /** Pads missing, up to the next multiple of four. */
  ghost predicate Padding(out: string, all: string) {
    |all| % 4 == 0 && (out == all || out + "=" == all || out + "==" == all)
  }

  lemma Pads(s: seq<Byte>, out: string)
    requires out == Encode(s) || out + "=" == Encode(s) || out + "==" == Encode(s)
    ensures Padding(out, Encode(s))
  {
    hide Encode;
    EncodedFours(s);
  }

  lemma StartWritten()
    ensures Written([], "", 0, -6)
  {
  }

  /** The test vectors of section 10 of the standard. */
  lemma TestVectors()
    ensures Encode([]) == "" && Encode([102]) == "Zg==" && Encode([102, 111]) == "Zm8="
    ensures Encode([102, 111, 111]) == "Zm9v" && Encode([102, 111, 111, 98]) == "Zm9vYg=="
    ensures Encode([102, 111, 111, 98, 97]) == "Zm9vYmE=" && Encode([102, 111, 111, 98, 97, 114]) == "Zm9vYmFy"
  {
    assert [102, 111, 111, 98][3..] == [98];
    assert [102, 111, 111, 98, 97][3..] == [98, 97];
    assert [102, 111, 111, 98, 97, 114][3..] == [98, 97, 114] && [98, 97, 114][3..] == [];
  }

  /** The alphabet of the standard: capital letters, small letters, digits, plus, slash. */
  lemma Alphabet(v: Sextet)
    ensures Letter(v) as int ==
      if v <= 25 then 65 + v else if v <= 51 then 71 + v else if v <= 61 then v - 4 else if v == 62 then 43 else 47
  {
  }
}
