/**
 Hardware addresses: `net.ParseMAC` with its three notations, and the printing that the system
 uses as the canonical form.
 */
module Mac {
  import opened Results

  type Octet = n: int | 0 <= n < 256

  /** ASCII lower case; the only letters that matter in an address or in the key "mac". */
  function LowerChar(c: char): char {
    if 'A' <= c <= 'Z' then c - 'A' + 'a' else c
  }

  function Lower(s: string): (r: string)
    ensures |r| == |s| && forall i :: 0 <= i < |s| ==> r[i] == LowerChar(s[i])
  {
    seq(|s|, i requires 0 <= i < |s| => LowerChar(s[i]))
  }

  predicate IsHex(c: char) {
    '0' <= c <= '9' || 'a' <= c <= 'f' || 'A' <= c <= 'F'
  }

  function HexValue(c: char): (v: int)
    requires IsHex(c)
    ensures 0 <= v < 16
  {
    if '0' <= c <= '9' then (c - '0') as int
    else if 'a' <= c <= 'f' then (c - 'a') as int + 10
    else (c - 'A') as int + 10
  }

  function Digit(v: int): char
    requires 0 <= v < 16
  {
    if v < 10 then '0' + v as char else 'a' + (v - 10) as char
  }

  predicate ValidLength(n: nat) {
    n == 6 || n == 8 || n == 20
  }

  // ---------- parsing ----------

  function ParsePairs(s: string, sep: char): Option<seq<Octet>> {
    if |s| < 2 || !IsHex(s[0]) || !IsHex(s[1]) then None
    else
      var o := HexValue(s[0]) * 16 + HexValue(s[1]);
      if |s| == 2 then Some([o])
      else if s[2] != sep then None
      else match ParsePairs(s[3..], sep)
        case None => None
        case Some(rest) => Some([o] + rest)
  }

  function ParseQuads(s: string): Option<seq<Octet>> {
    if |s| < 4 || !IsHex(s[0]) || !IsHex(s[1]) || !IsHex(s[2]) || !IsHex(s[3]) then None
    else
      var o := HexValue(s[0]) * 16 + HexValue(s[1]);
      var p := HexValue(s[2]) * 16 + HexValue(s[3]);
      if |s| == 4 then Some([o, p])
      else if s[4] != '.' then None
      else match ParseQuads(s[5..])
        case None => None
        case Some(rest) => Some([o, p] + rest)
  }

  function OfValidLength(parsed: Option<seq<Octet>>): Option<seq<Octet>> {
    if parsed.Some? && ValidLength(|parsed.value|) then parsed else None
  }

  function ParseMAC(s: string): Option<seq<Octet>> {
    if |s| < 14 then None
    else if s[2] == ':' || s[2] == '-' then OfValidLength(ParsePairs(s, s[2]))
    else if s[4] == '.' then OfValidLength(ParseQuads(s))
    else None
  }

  // ---------- printing ----------

  function HexPair(o: Octet): (r: string)
    ensures |r| == 2
  {
    [Digit(o / 16), Digit(o % 16)]
  }

  function Pairs(a: seq<Octet>, sep: char): string {
    if a == [] then "" else if |a| == 1 then HexPair(a[0])
    else HexPair(a[0]) + [sep] + Pairs(a[1..], sep)
  }

  /** The dotted notation of an even number of octets. */
  function Quads(a: seq<Octet>): string {
    if |a| < 2 then "" else if |a| == 2 then HexPair(a[0]) + HexPair(a[1])
    else HexPair(a[0]) + HexPair(a[1]) + "." + Quads(a[2..])
  }

  /** `HardwareAddr.String`, the canonical form. */
  function PrintMAC(a: seq<Octet>): string {
    Pairs(a, ':')
  }

  // ---------- exactly which texts are accepted ----------

  lemma HexDigitExact(c: char, v: int)
    requires 0 <= v < 16
    ensures LowerChar(c) == Digit(v) <==> IsHex(c) && HexValue(c) == v
  {
  }

  lemma HexPairExact(c: char, d: char, o: Octet)
    ensures [LowerChar(c), LowerChar(d)] == HexPair(o) <==>
            IsHex(c) && IsHex(d) && HexValue(c) * 16 + HexValue(d) == o
  {
    HexDigitExact(c, o / 16);
    HexDigitExact(d, o % 16);
  }

  lemma {:induction false} PairsExact(s: string, sep: char, a: seq<Octet>)
    requires sep == ':' || sep == '-'
    ensures ParsePairs(s, sep) == Some(a) <==> a != [] && Lower(s) == Pairs(a, sep)
    decreases |s|
  {
    if a != [] && |s| >= 2 {
      HexPairExact(s[0], s[1], a[0]);
      var t := Lower(s);
      assert t[..2] == [LowerChar(s[0]), LowerChar(s[1])];
      assert a == [a[0]] + a[1..];
      if |s| >= 3 {
        PairsExact(s[3..], sep, a[1..]);
        assert t == t[..2] + [t[2]] + t[3..];
        assert Lower(s[3..]) == t[3..];
        if Lower(s) == Pairs(a, sep) {
          assert t[..2] == HexPair(a[0]);
          assert t[3..] == Pairs(a, sep)[3..] == Pairs(a[1..], sep);
        }
      } else {
        assert t == t[..2];
        if Lower(s) == Pairs(a, sep) {
          assert a == [a[0]];
        }
      }
    }
  }

  lemma {:induction false} QuadsShape(a: seq<Octet>, n: nat)
    requires |a| == 2 * n && n > 0
    ensures |Quads(a)| == 5 * n - 1
    ensures IsHex(Quads(a)[2])
    ensures |a| > 2 ==> Quads(a)[4] == '.'
  {
    assert Quads(a)[2] == Digit(a[1] / 16);
    HexDigitExact(Digit(a[1] / 16), a[1] / 16);
    if |a| > 2 {
      QuadsShape(a[2..], n - 1);
      assert |Quads(a)| == 5 + |Quads(a[2..])|;
      assert Quads(a)[4] == '.';
    }
  }

  lemma QuadHeadExact(s: string, o: Octet, p: Octet)
    requires |s| >= 4
    ensures Lower(s)[..4] == HexPair(o) + HexPair(p) <==>
            && IsHex(s[0]) && IsHex(s[1]) && HexValue(s[0]) * 16 + HexValue(s[1]) == o
            && IsHex(s[2]) && IsHex(s[3]) && HexValue(s[2]) * 16 + HexValue(s[3]) == p
  {
    HexPairExact(s[0], s[1], o);
    HexPairExact(s[2], s[3], p);
    assert Lower(s)[..4] == [LowerChar(s[0]), LowerChar(s[1])] + [LowerChar(s[2]), LowerChar(s[3])];
  }

  lemma HeadAndTail(t: string, head: string, c: char, tail: string)
    requires |t| > 4 && |head| == 4
    ensures t == head + [c] + tail <==> t[..4] == head && t[4] == c && t[5..] == tail
  {
    var u := head + [c] + tail;
    assert u[..4] == head && u[4] == c && u[5..] == tail;
    assert t == t[..4] + [t[4]] + t[5..];
  }

  lemma {:induction false} QuadsSound(s: string, a: seq<Octet>)
    requires ParseQuads(s) == Some(a)
    ensures |a| >= 2 && Lower(s) == Quads(a)
    decreases |s|
  {
    QuadHeadExact(s, a[0], a[1]);
    if |s| == 4 {
      assert Lower(s)[..4] == Lower(s);
    } else {
      var rest := ParseQuads(s[5..]).value;
      assert a[2..] == rest;
      QuadsSound(s[5..], rest);
      HeadAndTail(Lower(s), HexPair(a[0]) + HexPair(a[1]), '.', Quads(rest));
      assert Lower(s)[5..] == Lower(s[5..]);
    }
  }

  lemma {:induction false} QuadsComplete(s: string, a: seq<Octet>, n: nat)
    requires |a| == 2 * n && n > 0 && Lower(s) == Quads(a)
    ensures ParseQuads(s) == Some(a)
    decreases n
  {
    hide HexPair, HexValue, IsHex;
    QuadsShape(a, n);
    QuadHeadExact(s, a[0], a[1]);
    var head := HexPair(a[0]) + HexPair(a[1]);
    if n == 1 {
      assert Lower(s)[..4] == Lower(s);
      assert a == [a[0], a[1]];
    } else {
      HeadAndTail(Lower(s), head, '.', Quads(a[2..]));
      assert Lower(s)[5..] == Lower(s[5..]);
      QuadsComplete(s[5..], a[2..], n - 1);
      assert a == [a[0], a[1]] + a[2..];
    }
  }

  lemma QuadsExact(s: string, a: seq<Octet>, n: nat)
    requires |a| == 2 * n && n > 0
    ensures ParseQuads(s) == Some(a) <==> Lower(s) == Quads(a)
  {
    if ParseQuads(s) == Some(a) {
      QuadsSound(s, a);
    }
    if Lower(s) == Quads(a) {
      QuadsComplete(s, a, n);
    }
  }

  lemma {:induction false} PairsShape(a: seq<Octet>, sep: char)
    requires a != []
    ensures |Pairs(a, sep)| == 3 * |a| - 1
    ensures |a| > 1 ==> Pairs(a, sep)[2] == sep
  {
    if |a| > 1 {
      PairsShape(a[1..], sep);
    }
  }

  lemma PairsSeparator(s: string, a: seq<Octet>, sep: char)
    requires |a| >= 6 && (sep == ':' || sep == '-') && Lower(s) == Pairs(a, sep)
    ensures |s| >= 14 && s[2] == sep
  {
    PairsShape(a, sep);
    assert Lower(s)[2] == LowerChar(s[2]);
  }

  lemma QuadsSeparator(s: string, a: seq<Octet>, n: nat)
    requires |a| == 2 * n && n >= 3 && Lower(s) == Quads(a)
    ensures |s| >= 14 && s[2] != ':' && s[2] != '-' && s[4] == '.'
  {
    QuadsShape(a, n);
    assert Lower(s)[2] == LowerChar(s[2]) && Lower(s)[4] == LowerChar(s[4]);
  }

  lemma ParseMACNotations(s: string, a: seq<Octet>)
    ensures ParseMAC(s) == Some(a) <==>
            ValidLength(|a|) && (Lower(s) == Pairs(a, ':') || Lower(s) == Pairs(a, '-') || Lower(s) == Quads(a))
  {
    PairsExact(s, ':', a);
    PairsExact(s, '-', a);
    if ValidLength(|a|) {
      var n := if |a| == 6 then 3 else if |a| == 8 then 4 else 10;
      QuadsExact(s, a, n);
      if Lower(s) == Pairs(a, ':') {
        PairsSeparator(s, a, ':');
      } else if Lower(s) == Pairs(a, '-') {
        PairsSeparator(s, a, '-');
      } else if Lower(s) == Quads(a) {
        QuadsSeparator(s, a, n);
      }
    }
  }

  // ---------- the notations, character by character ----------

  /** `t` has the two lower-case hexadecimal digits of `o` at `i`. */
  predicate DigitsAt(t: string, i: nat, o: Octet)
    requires i + 1 < |t|
  {
    DigitOf(t[i], o / 16) && DigitOf(t[i + 1], o % 16)
  }

  predicate DigitOf(c: char, v: int) {
    if v < 10 then c as int == '0' as int + v else c as int == 'a' as int + (v - 10)
  }

  /** `t` writes `a` as pairs of digits with `sep` between any two of them. */
  predicate WritesPairs(t: string, a: seq<Octet>, sep: char) {
    && |t| == 3 * |a| - 1
    && (forall i :: 0 <= i < |a| ==> DigitsAt(t, 3 * i, a[i]))
    && forall i :: 0 <= i < |t| && i % 3 == 2 ==> t[i] == sep
  }

  /** `t` writes `a` as groups of two octets with dots between them. */
  predicate WritesQuads(t: string, a: seq<Octet>) {
    && |a| % 2 == 0 && 2 * (|t| + 1) == 5 * |a|
    && forall q :: 0 <= q < |a| / 2 ==> QuadAt(t, a, q)
  }

  /** The `q`-th group of four digits, and the dot behind it unless it is the last. */
  predicate QuadAt(t: string, a: seq<Octet>, q: nat) {
    && 2 * q + 1 < |a| && 5 * q + 3 < |t|
    && DigitsAt(t, 5 * q, a[2 * q]) && DigitsAt(t, 5 * q + 2, a[2 * q + 1])
    && (5 * q + 4 < |t| ==> t[5 * q + 4] == '.')
  }

  lemma DigitIs(c: char, v: int)
    requires 0 <= v < 16
    ensures c == Digit(v) <==> DigitOf(c, v)
  {
  }

  lemma HexPairIs(t: string, i: nat, o: Octet)
    requires i + 1 < |t|
    ensures t[i..i + 2] == HexPair(o) <==> DigitsAt(t, i, o)
  {
    DigitIs(t[i], o / 16);
    DigitIs(t[i + 1], o % 16);
    hide Digit, DigitOf;
    assert t[i..i + 2] == [t[i], t[i + 1]];
  }

  lemma PairsHeadAndTail(t: string, a: seq<Octet>, sep: char)
    requires |a| > 1
    ensures t == Pairs(a, sep) <==>
            |t| >= 3 && t[0..2] == HexPair(a[0]) && t[2] == sep && t[3..] == Pairs(a[1..], sep)
  {
    hide HexPair;
    var u := HexPair(a[0]) + [sep] + Pairs(a[1..], sep);
    assert u[0..2] == HexPair(a[0]) && u[2] == sep && u[3..] == Pairs(a[1..], sep);
    assert |t| >= 3 ==> t == t[0..2] + [t[2]] + t[3..];
  }

  lemma WritesPairsTail(t: string, a: seq<Octet>, sep: char)
    requires |a| > 1 && |t| >= 3
    ensures WritesPairs(t, a, sep) <==> DigitsAt(t, 0, a[0]) && t[2] == sep && WritesPairs(t[3..], a[1..], sep)
  {
    hide DigitOf;
    var u := t[3..];
    if |t| == 3 * |a| - 1 {
      forall i | 0 <= i < |a| - 1 ensures DigitsAt(u, 3 * i, a[1..][i]) <==> DigitsAt(t, 3 * (i + 1), a[i + 1]) {
        assert 3 * (i + 1) == 3 * i + 3;
      }
      if WritesPairs(t, a, sep) {
        assert DigitsAt(t, 3 * 0, a[0]);
        forall i | 0 <= i < |a| - 1 ensures DigitsAt(u, 3 * i, a[1..][i]) {
          assert DigitsAt(t, 3 * (i + 1), a[i + 1]);
        }
        forall i | 0 <= i < |u| && i % 3 == 2 ensures u[i] == sep {
          assert t[i + 3] == sep;
        }
      }
      if DigitsAt(t, 0, a[0]) && t[2] == sep && WritesPairs(u, a[1..], sep) {
        forall i | 0 <= i < |a| ensures DigitsAt(t, 3 * i, a[i]) {
          if i > 0 {
            assert DigitsAt(u, 3 * (i - 1), a[1..][i - 1]);
          }
        }
        forall i | 0 <= i < |t| && i % 3 == 2 ensures t[i] == sep {
          if i > 2 {
            assert u[i - 3] == sep;
          }
        }
      }
    }
  }

  lemma {:induction false} PairsWritten(t: string, a: seq<Octet>, sep: char)
    requires a != []
    ensures t == Pairs(a, sep) <==> WritesPairs(t, a, sep)
    decreases |a|
  {
    if |a| == 1 {
      if |t| == 2 {
        HexPairIs(t, 0, a[0]);
        assert t[0..2] == t;
        assert WritesPairs(t, a, sep) <==> DigitsAt(t, 3 * 0, a[0]);
      }
    } else if |t| >= 3 {
      HexPairIs(t, 0, a[0]);
      PairsWritten(t[3..], a[1..], sep);
      PairsHeadAndTail(t, a, sep);
      WritesPairsTail(t, a, sep);
    }
  }

  lemma QuadsHeadAndTail(t: string, a: seq<Octet>)
    requires |a| > 2
    ensures t == Quads(a) <==>
            |t| >= 5 && t[0..2] == HexPair(a[0]) && t[2..4] == HexPair(a[1]) && t[4] == '.' && t[5..] == Quads(a[2..])
  {
    hide HexPair;
    var head := HexPair(a[0]) + HexPair(a[1]);
    var tail := Quads(a[2..]);
    assert Quads(a) == head + ['.'] + tail;
    hide Quads;
    if |t| >= 5 {
      HeadAndTail(t, head, '.', tail);
      assert head[..2] == HexPair(a[0]) && head[2..] == HexPair(a[1]);
      assert t[..4] == t[0..2] + t[2..4];
    }
  }

  lemma QuadsTail(t: string, a: seq<Octet>, q: nat)
    requires |a| > 2 && |t| >= 5
    ensures QuadAt(t[5..], a[2..], q) <==> QuadAt(t, a, q + 1)
  {
    hide DigitOf;
  }

  lemma WritesQuadsTail(t: string, a: seq<Octet>)
    requires |a| > 2 && |t| >= 5
    ensures WritesQuads(t, a) <==> QuadAt(t, a, 0) && WritesQuads(t[5..], a[2..])
  {
    forall q: nat ensures QuadAt(t[5..], a[2..], q) <==> QuadAt(t, a, q + 1) {
      QuadsTail(t, a, q);
    }
    hide QuadAt;
    var n := |a| / 2;
    assert |a[2..]| / 2 == n - 1;
    if WritesQuads(t, a) {
      forall q | 0 <= q < n - 1 ensures QuadAt(t[5..], a[2..], q) {
        assert QuadAt(t, a, q + 1);
      }
    }
    if QuadAt(t, a, 0) && WritesQuads(t[5..], a[2..]) {
      forall q | 0 <= q < n ensures QuadAt(t, a, q) {
        if q > 0 {
          assert QuadAt(t[5..], a[2..], q - 1);
        }
      }
    }
  }

  lemma {:induction false} QuadsWritten(t: string, a: seq<Octet>)
    requires |a| >= 2 && |a| % 2 == 0
    ensures t == Quads(a) <==> WritesQuads(t, a)
    decreases |a|
  {
    if |a| == 2 {
      if |t| == 4 {
        HexPairIs(t, 0, a[0]);
        HexPairIs(t, 2, a[1]);
        assert t == t[0..2] + t[2..4];
        assert WritesQuads(t, a) <==> QuadAt(t, a, 0);
      }
    } else if |t| >= 5 {
      HexPairIs(t, 0, a[0]);
      HexPairIs(t, 2, a[1]);
      QuadsWritten(t[5..], a[2..]);
      QuadsHeadAndTail(t, a);
      WritesQuadsTail(t, a);
    }
  }

  /**
   The accepted texts are the three notations of an address of 6, 8 or 20 octets, in any letter
   case, and nothing else: pairs of digits with colons or dashes, or groups of four with dots.
   */
  lemma ParseMACExact(s: string, a: seq<Octet>)
    ensures ParseMAC(s) == Some(a) <==>
            && (|a| == 6 || |a| == 8 || |a| == 20)
            && (WritesPairs(Lower(s), a, ':') || WritesPairs(Lower(s), a, '-') || WritesQuads(Lower(s), a))
  {
    hide Pairs, Quads, WritesPairs, WritesQuads, ParseMAC;
    ParseMACNotations(s, a);
    if |a| == 6 || |a| == 8 || |a| == 20 {
      PairsWritten(Lower(s), a, ':');
      PairsWritten(Lower(s), a, '-');
      QuadsWritten(Lower(s), a);
    }
  }

  /** The canonical form of an accepted text: lower-case pairs with colons, naming the same octets. */
  lemma CanonicalExact(s: string)
    requires ParseMAC(s).Some?
    ensures var a, t := ParseMAC(s).value, PrintMAC(ParseMAC(s).value);
            && WritesPairs(t, a, ':') && Lower(t) == t && ParseMAC(t) == Some(a)
            && (s == Lower(s) && s[2] == ':' ==> t == s)
  {
    hide Pairs, Quads, ParsePairs, ParseQuads;
    var a := ParseMAC(s).value;
    ParsedLength(s);
    PrintParse(a);
    PairsAreLower(a, ':');
    PairsWritten(PrintMAC(a), a, ':');
    if s == Lower(s) && s[2] == ':' {
      ParseMACExact(s, a);
      PairsWritten(s, a, ':');
      NotationOfColon(s, a);
    }
  }

  lemma NotationOfColon(s: string, a: seq<Octet>)
    requires (|a| == 6 || |a| == 8 || |a| == 20) && |s| > 2 && s[2] == ':'
    ensures !WritesPairs(s, a, '-') && !WritesQuads(s, a)
  {
    assert !QuadAt(s, a, 0);
  }

  lemma {:induction false} PairsAreLower(a: seq<Octet>, sep: char)
    requires sep == ':' || sep == '-'
    ensures Lower(Pairs(a, sep)) == Pairs(a, sep)
  {
    if a != [] {
      HexDigitExact(Digit(a[0] / 16), a[0] / 16);
      HexDigitExact(Digit(a[0] % 16), a[0] % 16);
      PairsAreLower(a[1..], sep);
      if |a| > 1 {
        var p := Pairs(a[1..], sep);
        assert Pairs(a, sep)[3..] == p;
        forall i | 3 <= i < |Pairs(a, sep)| ensures LowerChar(Pairs(a, sep)[i]) == Pairs(a, sep)[i] {
          assert Pairs(a, sep)[i] == p[i - 3] && Lower(p)[i - 3] == p[i - 3];
        }
      }
    }
  }

  /** Printing and parsing undo each other; the canonical form is its own canonical form. */
  lemma PrintParse(a: seq<Octet>)
    requires ValidLength(|a|)
    ensures ParseMAC(PrintMAC(a)) == Some(a)
    ensures PrintMAC(a) != ""
  {
    PairsAreLower(a, ':');
    ParseMACNotations(PrintMAC(a), a);
    PairsShape(a, ':');
  }

  lemma ParsedLength(s: string)
    ensures ParseMAC(s).Some? ==> ValidLength(|ParseMAC(s).value|)
  {
  }

  /** Two accepted texts have the same canonical form exactly when they name the same octets. */
  lemma CanonicalDecides(s: string, t: string)
    requires ParseMAC(s).Some? && ParseMAC(t).Some?
    ensures PrintMAC(ParseMAC(s).value) == PrintMAC(ParseMAC(t).value) <==> ParseMAC(s) == ParseMAC(t)
  {
    PrintParse(ParseMAC(s).value);
    PrintParse(ParseMAC(t).value);
  }
}
