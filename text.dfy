/**
 * The string operations the handler relies on: `str.replace('%40', '@')`,
 * `str.split(' ')`, and the decimal conversions `str(n)` / `int(s)` that
 * DynamoDB number attributes and the formatted timestamps go through.
 */
module Text {
  import opened Wrappers

  // ---------------------------------------------------------------------
  // Percent-encoded '@'
  // ---------------------------------------------------------------------

  /** The escaped form of '@' that usernames and S3 keys arrive with. */
  const ENCODED_AT: string := "%40"

  /** `s` holds the three characters "%40" starting at index `i`. */
  predicate EncodedAtOccursAt(s: string, i: int) {
    0 <= i && i + 3 <= |s| && s[i..i + 3] == ENCODED_AT
  }

  ghost predicate HasEncodedAt(s: string) {
    exists i :: EncodedAtOccursAt(s, i)
  }

  /**
   * `s.replace('%40', '@')`: scans left to right and replaces every
   * non-overlapping occurrence of "%40" by "@".
   */
  function DecodeAt(s: string): (r: string)
    ensures |r| <= |s|
    decreases |s|
  {
    if |s| < 3 then s
    else if s[..3] == ENCODED_AT then "@" + DecodeAt(s[3..])
    else [s[0]] + DecodeAt(s[1..])
  }

  /**
   * Each "%40" becomes "@": an occurrence placed after any prefix is replaced,
   * and the text on either side is decoded on its own.
   */
  lemma {:induction false} DecodeAtAround(a: string, b: string)
    ensures DecodeAt(a + ENCODED_AT + b) == DecodeAt(a) + "@" + DecodeAt(b)
    decreases |a|
  {
    var s := a + ENCODED_AT + b;
    if |a| == 0 {
      assert s[..3] == ENCODED_AT && s[3..] == b;
    } else if |a| >= 3 && a[..3] == ENCODED_AT {
      assert s[..3] == ENCODED_AT;
      assert s[3..] == a[3..] + ENCODED_AT + b;
      DecodeAtAround(a[3..], b);
    } else {
      assert s[..3] != ENCODED_AT by {
        if |a| >= 3 {
          assert s[..3] == a[..3];
        } else {
          assert s[|a|] == '%';
        }
      }
      assert s[1..] == a[1..] + ENCODED_AT + b;
      DecodeAtAround(a[1..], b);
      if |a| < 3 {
        assert DecodeAt(a[1..]) == a[1..];
        assert a == [a[0]] + a[1..];
      }
    }
  }

  /** The first character of the decoded string. */
  lemma DecodeAtHead(s: string)
    requires |s| > 0
    ensures |DecodeAt(s)| > 0
    ensures DecodeAt(s)[0] == if |s| >= 3 && s[..3] == ENCODED_AT then '@' else s[0]
  {
  }

  /** Putting a character in front of a string without "%40" creates none, unless it completes "%40". */
  lemma ConsKeepsNone(c: char, rest: string)
    requires !HasEncodedAt(rest)
    requires |rest| >= 2 && c == '%' ==> !(rest[0] == '4' && rest[1] == '0')
    ensures !HasEncodedAt([c] + rest)
  {
    var r := [c] + rest;
    forall i | 0 <= i
      ensures !EncodedAtOccursAt(r, i)
    {
      if i == 0 && 3 <= |r| {
        assert r[..3] == [c, rest[0], rest[1]];
      } else if 0 < i && i + 3 <= |r| {
        assert r[i..i + 3] == rest[i - 1..i + 2];
        assert !EncodedAtOccursAt(rest, i - 1);
      }
    }
  }

  /** A decoded string that starts with "40" came from a string that starts with "40". */
  lemma DecodeAtStarts40(t: string)
    requires |DecodeAt(t)| >= 2 && DecodeAt(t)[0] == '4' && DecodeAt(t)[1] == '0'
    ensures |t| >= 2 && t[0] == '4' && t[1] == '0'
  {
    DecodeAtHead(t);
    if |t| >= 3 {
      assert DecodeAt(t) == [t[0]] + DecodeAt(t[1..]);
      DecodeAtHead(t[1..]);
    }
  }

  /** After decoding, no "%40" is left, not even one formed across a replacement. */
  lemma {:induction false} DecodeAtLeavesNone(s: string)
    ensures !HasEncodedAt(DecodeAt(s))
    decreases |s|
  {
    if |s| < 3 {
      assert DecodeAt(s) == s;
    } else if s[..3] == ENCODED_AT {
      DecodeAtLeavesNone(s[3..]);
      ConsKeepsNone('@', DecodeAt(s[3..]));
    } else {
      var rest := DecodeAt(s[1..]);
      DecodeAtLeavesNone(s[1..]);
      if |rest| >= 2 && rest[0] == '4' && rest[1] == '0' {
        DecodeAtStarts40(s[1..]);
        assert s[..3] == [s[0], s[1], s[2]];
      }
      ConsKeepsNone(s[0], rest);
    }
  }

  /** A string without "%40" is returned unchanged. */
  lemma {:induction false} DecodeAtIdentity(s: string)
    requires !HasEncodedAt(s)
    ensures DecodeAt(s) == s
    decreases |s|
  {
    if |s| >= 3 {
      assert !EncodedAtOccursAt(s, 0);
      assert s[..3] != ENCODED_AT;
      forall i | 0 <= i
        ensures !EncodedAtOccursAt(s[1..], i)
      {
        assert !EncodedAtOccursAt(s, i + 1);
        if i + 3 <= |s[1..]| {
          assert s[1..][i..i + 3] == s[i + 1..i + 4];
        }
      }
      DecodeAtIdentity(s[1..]);
      assert [s[0]] + s[1..] == s;
    }
  }

  /** Decoding twice is decoding once. */
  lemma DecodeAtIdempotent(s: string)
    ensures DecodeAt(DecodeAt(s)) == DecodeAt(s)
  {
    DecodeAtLeavesNone(s);
    DecodeAtIdentity(DecodeAt(s));
  }

  // ---------------------------------------------------------------------
  // str.split(' ')
  // ---------------------------------------------------------------------

  /**
   * `s.split(' ')`: the fields between single spaces, empty ones included;
   * the empty string gives one empty field.
   */
  function Split(s: string): (parts: seq<string>)
    ensures |parts| >= 1
    ensures forall k :: 0 <= k < |parts| ==> ' ' !in parts[k]
    decreases |s|
  {
    if |s| == 0 then [""]
    else if s[0] == ' ' then [""] + Split(s[1..])
    else
      var rest := Split(s[1..]);
      [[s[0]] + rest[0]] + rest[1..]
  }

  /** `' '.join(parts)`. */
  function Join(parts: seq<string>): string
    requires |parts| >= 1
    decreases |parts|
  {
    if |parts| == 1 then parts[0] else parts[0] + " " + Join(parts[1..])
  }

  /** Splitting loses nothing: joining the fields again gives back the input. */
  lemma {:induction false} JoinSplit(s: string)
    ensures Join(Split(s)) == s
    decreases |s|
  {
    if |s| == 0 {
    } else if s[0] == ' ' {
      JoinSplit(s[1..]);
      assert [""] + Split(s[1..]) == Split(s);
      assert (Split(s))[1..] == Split(s[1..]);
      assert Join(Split(s)) == "" + " " + Join(Split(s[1..]));
    } else {
      var rest := Split(s[1..]);
      JoinSplit(s[1..]);
      var parts := Split(s);
      assert parts[0] == [s[0]] + rest[0];
      assert parts[1..] == rest[1..];
      if |rest| == 1 {
        assert Join(parts) == [s[0]] + rest[0];
      } else {
        assert Join(rest) == rest[0] + " " + Join(rest[1..]);
        assert Join(parts) == [s[0]] + rest[0] + " " + Join(rest[1..]);
      }
      assert [s[0]] + s[1..] == s;
    }
  }

  /** A field without spaces followed by a space is the first field. */
  lemma {:induction false} SplitPrefix(a: string, rest: string)
    requires ' ' !in a
    ensures Split(a + " " + rest) == [a] + Split(rest)
    decreases |a|
  {
    if |a| == 0 {
      assert a + " " + rest == [' '] + rest;
      assert (a + " " + rest)[1..] == rest;
    } else {
      var s := a + " " + rest;
      assert s[0] == a[0];
      assert s[1..] == a[1..] + " " + rest;
      SplitPrefix(a[1..], rest);
      assert [a[0]] + a[1..] == a;
    }
  }

  /** A string without spaces is a single field. */
  lemma {:induction false} SplitNoSpace(a: string)
    requires ' ' !in a
    ensures Split(a) == [a]
    decreases |a|
  {
    if |a| > 0 {
      SplitNoSpace(a[1..]);
      assert [a[0]] + a[1..] == a;
    }
  }

  /** `(a + ' ' + b).split(' ') == [a, b]` when neither part has a space. */
  lemma SplitPair(a: string, b: string)
    requires ' ' !in a && ' ' !in b
    ensures Split(a + " " + b) == [a, b]
  {
    SplitPrefix(a, b);
    SplitNoSpace(b);
  }

  /** Joining space-free fields and splitting again gives back the fields. */
  lemma {:induction false} SplitJoin(parts: seq<string>)
    requires |parts| >= 1
    requires forall k :: 0 <= k < |parts| ==> ' ' !in parts[k]
    ensures Split(Join(parts)) == parts
    decreases |parts|
  {
    if |parts| == 1 {
      SplitNoSpace(parts[0]);
    } else {
      SplitJoin(parts[1..]);
      SplitPrefix(parts[0], Join(parts[1..]));
      assert [parts[0]] + parts[1..] == parts;
    }
  }

  // ---------------------------------------------------------------------
  // Decimal digits: str(n) and int(s)
  // ---------------------------------------------------------------------

  predicate IsDigit(c: char) {
    '0' <= c <= '9'
  }

  predicate AllDigits(s: string) {
    forall i :: 0 <= i < |s| ==> IsDigit(s[i])
  }

  lemma DigitsHaveNoSpace(s: string)
    requires AllDigits(s)
    ensures ' ' !in s
  {
  }

  function DigitChar(d: nat): (c: char)
    requires d < 10
    ensures IsDigit(c)
  {
    "0123456789"[d]
  }

  function DigitValue(c: char): (d: nat)
    requires IsDigit(c)
    ensures d < 10 && DigitChar(d) == c
  {
    c as int - '0' as int
  }

  lemma DigitCharValue(d: nat)
    requires d < 10
    ensures DigitValue(DigitChar(d)) == d
  {
  }

  /** `str(n)` for a non-negative integer: decimal, no leading zeros. */
  function NatToString(n: nat): (s: string)
    ensures |s| >= 1 && AllDigits(s)
    ensures |s| > 1 ==> s[0] != '0'
    decreases n
  {
    if n < 10 then [DigitChar(n)] else NatToString(n / 10) + [DigitChar(n % 10)]
  }

  /** The number a string of decimal digits denotes (0 for the empty string). */
  function DigitsValue(s: string): nat
    requires AllDigits(s)
    decreases |s|
  {
    if |s| == 0 then 0 else 10 * DigitsValue(s[..|s| - 1]) + DigitValue(s[|s| - 1])
  }

  /**
   * `int(s)` on a string of decimal digits (leading zeros allowed); `None`
   * where Python raises ValueError.
   */
  function ParseNat(s: string): (r: Option<nat>)
    ensures r.Some? <==> |s| >= 1 && AllDigits(s)
  {
    if |s| >= 1 && AllDigits(s) then Some(DigitsValue(s)) else None
  }

  lemma ParseNatSingle(c: char)
    requires IsDigit(c)
    ensures ParseNat([c]) == Some(DigitValue(c))
  {
    assert [c][..0] == [];
    assert AllDigits([c]);
    assert DigitsValue([c]) == 10 * DigitsValue([]) + DigitValue(c);
  }

  /** Appending a digit multiplies by ten and adds it. */
  lemma ParseNatSnoc(s: string, c: char)
    requires |s| >= 1 && AllDigits(s) && IsDigit(c)
    ensures ParseNat(s + [c]) == Some(10 * ParseNat(s).value + DigitValue(c))
  {
    var t := s + [c];
    assert t[..|s|] == s;
    assert AllDigits(t);
    assert DigitsValue(t) == 10 * DigitsValue(s) + DigitValue(c);
  }

  lemma DivModTen(v: nat, d: nat)
    requires d < 10
    ensures (10 * v + d) / 10 == v && (10 * v + d) % 10 == d
  {
  }

  lemma DivTenBelow(n: nat, p: nat)
    requires n < 10 * p
    ensures n / 10 < p && 10 * (n / 10) + n % 10 == n
  {
  }

  /** `int(str(n)) == n`. */
  lemma {:induction false} ParseNatToString(n: nat)
    ensures ParseNat(NatToString(n)) == Some(n)
    decreases n
  {
    if n < 10 {
      ParseNatSingle(DigitChar(n));
    } else {
      ParseNatToString(n / 10);
      ParseNatSnoc(NatToString(n / 10), DigitChar(n % 10));
    }
  }

  function Pow10(w: nat): (p: nat)
    ensures p >= 1
  {
    if w == 0 then 1 else 10 * Pow10(w - 1)
  }

  /** The last `w` decimal digits of `n`, zero-padded: strftime's `%02d`-style fields. */
  function Pad(n: nat, w: nat): (s: string)
    ensures |s| == w && AllDigits(s)
    decreases w
  {
    if w == 0 then "" else Pad(n / 10, w - 1) + [DigitChar(n % 10)]
  }

  /** A zero-padded field reads back as the number when the number fits. */
  lemma {:induction false} ParsePad(n: nat, w: nat)
    requires 1 <= w && n < Pow10(w)
    ensures ParseNat(Pad(n, w)) == Some(n)
    decreases w
  {
    if w == 1 {
      assert Pad(n, w) == [DigitChar(n)];
      ParseNatSingle(DigitChar(n));
    } else {
      var q, r := n / 10, n % 10;
      DivTenBelow(n, Pow10(w - 1));
      ParsePad(q, w - 1);
      assert Pad(n, w) == Pad(q, w - 1) + [DigitChar(r)];
      ParseNatSnoc(Pad(q, w - 1), DigitChar(r));
      DigitCharValue(r);
    }
  }

  /** A digit string of length `w` is the padded form of the number it reads as. */
  lemma {:induction false} PadParse(s: string)
    requires |s| >= 1 && AllDigits(s)
    ensures ParseNat(s).value < Pow10(|s|)
    ensures Pad(ParseNat(s).value, |s|) == s
    decreases |s|
  {
    var w := |s|;
    var last := DigitValue(s[w - 1]);
    if w == 1 {
      assert s == [s[0]];
      ParseNatSingle(s[0]);
      assert Pad(last, 1) == Pad(0, 0) + [DigitChar(last)];
    } else {
      var init := s[..w - 1];
      assert init + [s[w - 1]] == s;
      PadParse(init);
      var v := ParseNat(init).value;
      ParseNatSnoc(init, s[w - 1]);
      DivModTen(v, last);
      assert Pad(10 * v + last, w) == Pad(v, w - 1) + [DigitChar(last)];
    }
  }
}
