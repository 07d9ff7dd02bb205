/** UTF-8 as section 3 of RFC 3629 defines it: encoding a text, and decoding octets back. */
module Utf8 {
  import opened Wrappers

  type Octet = n: int | 0 <= n < 0x100

  /** One character by the table of the section, its bits spread over one to four octets. */
  function EncodeChar(ch: char): seq<Octet>
  {
    var code := ch as int;
    if code < 0x80 then [code]
    else if code < 0x800 then [0xC0 + code / 0x40, Trailing(code)]
    else if code < 0x10000 then [0xE0 + code / 0x1000, Trailing(code / 0x40), Trailing(code)]
    else [0xF0 + code / 0x40000, Trailing(code / 0x1000), Trailing(code / 0x40), Trailing(code)]
  }

  /** The lowest six bits behind the mark of a later octet. */
  function Trailing(code: nat): Octet
  {
    0x80 + code % 0x40
  }

  function Encode(s: string): seq<Octet>
  {
    if s == "" then [] else EncodeChar(s[0]) + Encode(s[1..])
  }

  /** How many octets the first one announces; none for a later octet or one that never appears. */
  function Announced(first: Octet): nat
  {
    if first < 0x80 then 1
    else if 0xC0 <= first < 0xE0 then 2
    else if 0xE0 <= first < 0xF0 then 3
    else if 0xF0 <= first < 0xF8 then 4
    else 0
  }

  /** The bits the first octet of a character carries itself. */
  function Leading(first: Octet): nat
    requires Announced(first) != 0
  {
    if first < 0x80 then first
    else if first < 0xE0 then first - 0xC0
    else if first < 0xF0 then first - 0xE0
    else first - 0xF0
  }

  /** The number that n octets spell, the later ones six bits each. */
  function Spelled(octets: seq<Octet>, n: nat): nat
    requires 1 <= n <= |octets| && Announced(octets[0]) != 0
    requires forall i :: 1 <= i < n ==> 0x80 <= octets[i] < 0xC0
  {
    if n == 1 then Leading(octets[0]) else Spelled(octets, n - 1) * 0x40 + (octets[n - 1] - 0x80)
  }

  /** The least number that needs n octets: anything smaller is spelled with fewer. */
  function LeastOf(n: nat): nat
  {
    if n <= 1 then 0 else if n == 2 then 0x80 else if n == 3 then 0x800 else 0x10000
  }

  /** The first character and how many octets it took, unless the octets spell none. */
  function DecodeFirst(octets: seq<Octet>): (r: Option<(char, nat)>)
    requires octets != []
    ensures r.Some? ==> 1 <= r.value.1 <= |octets|
  {
    var n := Announced(octets[0]);
    if n == 0 || n > |octets| || (exists i :: 1 <= i < n && !(0x80 <= octets[i] < 0xC0)) then None
    else
      var code := Spelled(octets, n);
      if code < LeastOf(n) || 0xD800 <= code < 0xE000 || code >= 0x110000 then None else Some((code as char, n))
  }

  function Decode(octets: seq<Octet>): Option<string>
    decreases |octets|
  {
    if octets == [] then Some("")
    else
      match DecodeFirst(octets)
      case None => None
      case Some((ch, n)) =>
        match Decode(octets[n..])
        case None => None
        case Some(rest) => Some([ch] + rest)
  }

  lemma {:induction false} EncodeConcat(a: string, b: string)
    ensures Encode(a + b) == Encode(a) + Encode(b)
  {
    if a == "" {
      assert a + b == b;
    } else {
      assert (a + b)[0] == a[0] && (a + b)[1..] == a[1..] + b;
      EncodeConcat(a[1..], b);
    }
  }

  lemma TwoSpell(octets: seq<Octet>, code: nat)
    requires 0x80 <= code < 0x800 && |octets| >= 2 && octets[..2] == [0xC0 + code / 0x40, Trailing(code)]
    ensures Announced(octets[0]) == 2 && 0x80 <= octets[1] < 0xC0 && Spelled(octets, 2) == code
  {
    assert octets[0] == octets[..2][0] && octets[1] == octets[..2][1];
    assert Spelled(octets, 1) == code / 0x40;
  }

  lemma ThreeSpell(octets: seq<Octet>, code: nat)
    requires 0x800 <= code < 0x10000 && |octets| >= 3
    requires octets[..3] == [0xE0 + code / 0x1000, Trailing(code / 0x40), Trailing(code)]
    ensures Announced(octets[0]) == 3 && 0x80 <= octets[1] < 0xC0 && 0x80 <= octets[2] < 0xC0
    ensures Spelled(octets, 3) == code
  {
    assert octets[0] == octets[..3][0] && octets[1] == octets[..3][1] && octets[2] == octets[..3][2];
    assert Spelled(octets, 1) == code / 0x1000;
    assert Spelled(octets, 2) == code / 0x40;
  }

  lemma FourSpell(octets: seq<Octet>, code: nat)
    requires 0x10000 <= code < 0x110000 && |octets| >= 4
    requires octets[..4] ==
      [0xF0 + code / 0x40000, Trailing(code / 0x1000), Trailing(code / 0x40), Trailing(code)]
    ensures Announced(octets[0]) == 4
    ensures 0x80 <= octets[1] < 0xC0 && 0x80 <= octets[2] < 0xC0 && 0x80 <= octets[3] < 0xC0
    ensures Spelled(octets, 4) == code
  {
    assert octets[0] == octets[..4][0] && octets[1] == octets[..4][1];
    assert octets[2] == octets[..4][2] && octets[3] == octets[..4][3];
    assert Spelled(octets, 1) == code / 0x40000;
    assert Spelled(octets, 2) == code / 0x1000;
    assert Spelled(octets, 3) == code / 0x40;
  }

  lemma CharDecodes(ch: char, rest: seq<Octet>)
    ensures DecodeFirst(EncodeChar(ch) + rest) == Some((ch, |EncodeChar(ch)|))
  {
    var first := EncodeChar(ch);
    var octets := first + rest;
    var code := ch as int;
    assert octets[..|first|] == first;
    if code < 0x80 {
      assert octets[0] == code && Spelled(octets, 1) == code;
    } else if code < 0x800 {
      TwoSpell(octets, code);
    } else if code < 0x10000 {
      ThreeSpell(octets, code);
    } else {
      FourSpell(octets, code);
    }
  }

  /** Every text is read back from its octets. */
  lemma {:induction false} EncodedDecodes(s: string)
    ensures Decode(Encode(s)) == Some(s)
  {
    if s != "" {
      var first, rest := EncodeChar(s[0]), Encode(s[1..]);
      CharDecodes(s[0], rest);
      assert (first + rest)[|first|..] == rest;
      EncodedDecodes(s[1..]);
      assert s == [s[0]] + s[1..];
    }
  }

  lemma SixBits(high: nat, low: nat)
    requires low < 0x40
    ensures (high * 0x40 + low) / 0x40 == high && (high * 0x40 + low) % 0x40 == low
  {
  }

  /** The lowest bits of what n octets spell are in the last one, the others in those before it. */
  lemma SpelledSplits(octets: seq<Octet>, n: nat)
    requires 2 <= n <= |octets| && Announced(octets[0]) != 0
    requires forall i :: 1 <= i < n ==> 0x80 <= octets[i] < 0xC0
    ensures Spelled(octets, n) / 0x40 == Spelled(octets, n - 1) && Trailing(Spelled(octets, n)) == octets[n - 1]
  {
    SixBits(Spelled(octets, n - 1), octets[n - 1] - 0x80);
  }

  lemma SixBitsTwice(code: nat)
    ensures code / 0x1000 == code / 0x40 / 0x40 && code / 0x40000 == code / 0x1000 / 0x40
  {
  }

  /** Which character table row a decoded number falls into. */
  lemma DecodedRow(octets: seq<Octet>)
    requires octets != [] && DecodeFirst(octets).Some?
    ensures var (ch, n) := DecodeFirst(octets).value; var code := ch as int;
      && n == Announced(octets[0]) && 1 <= n <= 4 && n <= |octets| && code < 0x110000
      && (forall i :: 1 <= i < n ==> 0x80 <= octets[i] < 0xC0)
      && code == Spelled(octets, n) && code >= LeastOf(n)
  {
  }

  lemma RowTwo(ch: char, octets: seq<Octet>)
    requires |octets| >= 2 && Announced(octets[0]) == 2 && 0x80 <= octets[1] < 0xC0
    requires ch as int == Spelled(octets, 2) >= 0x80
    ensures EncodeChar(ch) == [octets[0], octets[1]]
  {
    SpelledSplits(octets, 2);
    assert Spelled(octets, 1) == octets[0] - 0xC0;
  }

  lemma RowThree(ch: char, octets: seq<Octet>)
    requires |octets| >= 3 && Announced(octets[0]) == 3
    requires 0x80 <= octets[1] < 0xC0 && 0x80 <= octets[2] < 0xC0
    requires ch as int == Spelled(octets, 3) >= 0x800
    ensures EncodeChar(ch) == [octets[0], octets[1], octets[2]]
  {
    SpelledSplits(octets, 2);
    SpelledSplits(octets, 3);
    SixBitsTwice(ch as int);
    assert Spelled(octets, 1) == octets[0] - 0xE0;
  }

  lemma RowFour(ch: char, octets: seq<Octet>)
    requires |octets| >= 4 && Announced(octets[0]) == 4
    requires 0x80 <= octets[1] < 0xC0 && 0x80 <= octets[2] < 0xC0 && 0x80 <= octets[3] < 0xC0
    requires ch as int == Spelled(octets, 4) >= 0x10000
    ensures EncodeChar(ch) == [octets[0], octets[1], octets[2], octets[3]]
  {
    SpelledSplits(octets, 2);
    SpelledSplits(octets, 3);
    SpelledSplits(octets, 4);
    SixBitsTwice(ch as int);
    assert Spelled(octets, 1) == octets[0] - 0xF0;
  }

  lemma SpelledEncodes(octets: seq<Octet>)
    requires octets != [] && DecodeFirst(octets).Some?
    ensures var (ch, n) := DecodeFirst(octets).value; EncodeChar(ch) == octets[..n]
  {
    var (ch, n) := DecodeFirst(octets).value;
    DecodedRow(octets);
    if n == 1 {
      assert octets[..1] == [octets[0]];
    } else if n == 2 {
      RowTwo(ch, octets);
      assert octets[..2] == [octets[0], octets[1]];
    } else if n == 3 {
      RowThree(ch, octets);
      assert octets[..3] == [octets[0], octets[1], octets[2]];
    } else {
      RowFour(ch, octets);
      assert octets[..4] == [octets[0], octets[1], octets[2], octets[3]];
    }
  }

  lemma CharFirst(ch: char, rest: string)
    ensures Encode([ch] + rest) == EncodeChar(ch) + Encode(rest)
  {
    assert ([ch] + rest)[1..] == rest;
  }

  lemma FirstDecoded(octets: seq<Octet>) returns (ch: char, n: nat)
    requires octets != [] && Decode(octets).Some?
    ensures 1 <= n <= |octets| && EncodeChar(ch) == octets[..n]
    ensures Decode(octets[n..]).Some? && Decode(octets).value == [ch] + Decode(octets[n..]).value
  {
    ch, n := DecodeFirst(octets).value.0, DecodeFirst(octets).value.1;
    SpelledEncodes(octets);
  }

  /** And nothing else is: octets that decode are the encoding of what they decode to. */
  lemma {:induction false} DecodedEncodes(octets: seq<Octet>)
    requires Decode(octets).Some?
    ensures Encode(Decode(octets).value) == octets
    decreases |octets|
  {
    if octets == [] {
    } else {
      var ch, n := FirstDecoded(octets);
      var rest := octets[n..];
      DecodedEncodes(rest);
      CharFirst(ch, Decode(rest).value);
      assert octets == octets[..n] + rest;
    }
  }
}
