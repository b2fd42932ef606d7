/**
 The string handling the chart scripts rely on: decimal digits as JavaScript
 renders and reads them, and `String.prototype.split` on a one-character separator.
 */
module Text {
  import opened Wrappers
  import opened Seqs

  predicate IsDigit(c: char)
  {
    '0' <= c <= '9'
  }

  predicate AllDigits(s: string)
  {
    forall i :: 0 <= i < |s| ==> IsDigit(s[i])
  }

  function DigitValue(c: char): (d: nat)
    requires IsDigit(c)
    ensures d < 10
  {
    c as int - '0' as int
  }

  function DigitChar(d: nat): (c: char)
    requires d < 10
    ensures IsDigit(c) && DigitValue(c) == d
  {
    ('0' as int + d) as char
  }

  /** Decimal text of a natural number as a template literal writes it: no leading zeros, "0" for zero. */
  function ShowNat(n: nat): (s: string)
    ensures |s| > 0 && AllDigits(s)
    ensures s[0] == '0' ==> n == 0
    ensures |s| > 1 ==> s[0] != '0'
  {
    if n < 10 then [DigitChar(n)] else ShowNat(n / 10) + [DigitChar(n % 10)]
  }

  /** Value of a string of decimal digits (the empty string reads as 0). */
  function ParseDigits(s: string): nat
    requires AllDigits(s)
  {
    if |s| == 0 then 0 else ParseDigits(DropLast(s)) * 10 + DigitValue(Last(s))
  }

  /** Reading back the decimal text of `n` gives `n`. */
  lemma {:induction false} ParseShowNat(n: nat)
    ensures ParseDigits(ShowNat(n)) == n
  {
    if n >= 10 {
      ParseShowNat(n / 10);
      assert DropLast(ShowNat(n)) == ShowNat(n / 10);
    }
  }

  /** Decimal rendering is injective. */
  lemma {:induction false} ShowNatInjective(m: nat, n: nat)
    ensures ShowNat(m) == ShowNat(n) <==> m == n
  {
    ParseShowNat(m);
    ParseShowNat(n);
  }

  function Pow10(w: nat): (p: nat)
    ensures p >= 1
  {
    if w == 0 then 1 else 10 * Pow10(w - 1)
  }

  /** The last `w` decimal digits of `n`, zero-padded on the left to width `w`. */
  function Pad(n: nat, w: nat): (s: string)
    ensures |s| == w && AllDigits(s)
  {
    if w == 0 then "" else Pad(n / 10, w - 1) + [DigitChar(n % 10)]
  }

  /** A zero-padded field reads back as the number when the number fits the width. */
  lemma {:induction false} ParsePad(n: nat, w: nat)
    requires n < Pow10(w)
    ensures ParseDigits(Pad(n, w)) == n
  {
    if w > 0 {
      assert n / 10 < Pow10(w - 1);
      ParsePad(n / 10, w - 1);
      assert DropLast(Pad(n, w)) == Pad(n / 10, w - 1);
    }
  }

  /** A digit string is the zero-padded text of its own value. */
  lemma {:induction false} PadParse(s: string)
    requires AllDigits(s)
    ensures ParseDigits(s) < Pow10(|s|)
    ensures Pad(ParseDigits(s), |s|) == s
  {
    if |s| > 0 {
      var d := DropLast(s);
      PadParse(d);
      var n := ParseDigits(s);
      assert n / 10 == ParseDigits(d) && n % 10 == DigitValue(Last(s));
      assert DigitChar(DigitValue(Last(s))) == Last(s);
      assert d + [Last(s)] == s;
    }
  }

  /**
   JavaScript's `ToNumber` on a string, for plain decimal text: the empty string
   is 0, a digit string is its value, anything else is NaN (`None`).
   */
  function StringToNumber(s: string): (r: Option<nat>)
    ensures r.None? <==> !AllDigits(s)
    ensures s == "" ==> r == Some(0)
  {
    if AllDigits(s) then Some(ParseDigits(s)) else None
  }

  /** The longest prefix of `s` made of decimal digits. */
  function DigitPrefix(s: string): (p: string)
    ensures AllDigits(p) && |p| <= |s| && p == s[..|p|]
    ensures forall i :: 0 <= i < |p| ==> IsDigit(s[i])
    ensures |p| < |s| ==> !IsDigit(s[|p|])
  {
    if |s| == 0 || !IsDigit(s[0]) then [] else [s[0]] + DigitPrefix(s[1..])
  }

  /**
   `parseInt(s)` for text without sign or leading white space: the value of the
   leading digits, or NaN (`None`) when `s` does not start with a digit.
   */
  function ParseIntPrefix(s: string): (r: Option<nat>)
    ensures r.None? <==> (|s| == 0 || !IsDigit(s[0]))
  {
    var p := DigitPrefix(s);
    if |p| == 0 then None else Some(ParseDigits(p))
  }

  /** `parseInt` stops at the first non-digit, so only the digit run matters. */
  lemma {:induction false} ParseIntOfDigitsThen(a: string, b: string)
    requires |a| > 0 && AllDigits(a)
    requires |b| > 0 ==> !IsDigit(b[0])
    ensures ParseIntPrefix(a + b) == Some(ParseDigits(a))
  {
    var s := a + b;
    assert s[..|a|] == a;
    assert forall i :: 0 <= i < |a| ==> IsDigit(s[i]);
    var p := DigitPrefix(s);
    assert |p| >= |a|;
    assert |a| < |s| ==> !IsDigit(s[|a|]);
    assert p == a;
  }

  /**
   `s.split(c)`: the pieces of `s` between occurrences of `c`; there is always at
   least one piece and none contains `c`.
   */
  function SplitOn(s: string, c: char): (parts: seq<string>)
    ensures |parts| >= 1
  {
    if |s| == 0 then [""]
    else
      var p := SplitOn(DropLast(s), c);
      if Last(s) == c then p + [""]
      else DropLast(p) + [Last(p) + [Last(s)]]
  }

  /**
   No piece contains `c`; there is a single piece, `s` itself, exactly when `s`
   has no `c`; the first piece is a prefix of `s`, followed by `c` when there
   are more pieces.
   */
  lemma {:induction false} SplitOnShape(s: string, c: char)
    ensures forall i :: 0 <= i < |SplitOn(s, c)| ==> c !in SplitOn(s, c)[i]
    ensures |SplitOn(s, c)| == 1 <==> c !in s
    ensures |SplitOn(s, c)| == 1 ==> SplitOn(s, c)[0] == s
    ensures |SplitOn(s, c)[0]| <= |s| && SplitOn(s, c)[0] == s[..|SplitOn(s, c)[0]|]
    ensures |SplitOn(s, c)| > 1 ==> |SplitOn(s, c)[0]| < |s| && s[|SplitOn(s, c)[0]|] == c
  {
    SplitOnPieces(s, c);
    SplitOnSingle(s, c);
    SplitOnFirst(s, c);
  }

  lemma {:induction false} SplitOnPieces(s: string, c: char)
    ensures forall i :: 0 <= i < |SplitOn(s, c)| ==> c !in SplitOn(s, c)[i]
  {
    if |s| > 0 {
      var d, x := DropLast(s), Last(s);
      SplitOnPieces(d, c);
      var p := SplitOn(d, c);
      if x != c {
        assert c !in Last(p) + [x];
      }
    }
  }

  lemma {:induction false} SplitOnSingle(s: string, c: char)
    ensures |SplitOn(s, c)| == 1 <==> c !in s
    ensures |SplitOn(s, c)| == 1 ==> SplitOn(s, c)[0] == s
  {
    if |s| > 0 {
      var d, x := DropLast(s), Last(s);
      SplitOnSingle(d, c);
      assert d + [x] == s;
      assert c in s <==> c in d || x == c;
    }
  }

  lemma {:induction false} SplitOnFirst(s: string, c: char)
    ensures |SplitOn(s, c)[0]| <= |s| && SplitOn(s, c)[0] == s[..|SplitOn(s, c)[0]|]
    ensures |SplitOn(s, c)| > 1 ==> |SplitOn(s, c)[0]| < |s| && s[|SplitOn(s, c)[0]|] == c
  {
    if |s| > 0 {
      var d, x := DropLast(s), Last(s);
      SplitOnFirst(d, c);
      SplitOnSingle(d, c);
      var p, r := SplitOn(d, c), SplitOn(s, c);
      assert d + [x] == s;
      if |p| == 1 {
        assert p[0] == d;
        if x != c {
          assert r[0] == s;
        } else {
          assert r[0] == d && s[|d|] == c;
        }
      } else {
        assert r[0] == p[0];
        assert s[..|p[0]|] == d[..|p[0]|];
      }
    }
  }

  /** `parts.join(c)`. */
  function Join(parts: seq<string>, c: char): string
    requires |parts| >= 1
  {
    if |parts| == 1 then parts[0] else Join(DropLast(parts), c) + [c] + Last(parts)
  }

  /** Splitting and joining with the same separator gives back the original text. */
  lemma {:induction false} JoinSplit(s: string, c: char)
    ensures Join(SplitOn(s, c), c) == s
  {
    if |s| > 0 {
      var p := SplitOn(DropLast(s), c);
      JoinSplit(DropLast(s), c);
      var q := SplitOn(s, c);
      if Last(s) == c {
        assert DropLast(q) == p;
      } else if |p| > 1 {
        assert DropLast(q) == DropLast(p);
      }
      assert DropLast(s) + [Last(s)] == s;
    }
  }

  /** One step of `SplitOn`: the last character either starts a new piece or extends the last one. */
  lemma {:induction false} SplitStep(s: string, c: char)
    requires |s| > 0
    ensures Last(s) == c ==> SplitOn(s, c) == SplitOn(DropLast(s), c) + [""]
    ensures Last(s) != c ==>
              SplitOn(s, c) == DropLast(SplitOn(DropLast(s), c)) + [Last(SplitOn(DropLast(s), c)) + [Last(s)]]
  {
  }

  /** Splitting at a separator occurrence splits the two sides independently. */
  lemma {:induction false} SplitAround(a: string, b: string, c: char)
    ensures SplitOn(a + [c] + b, c) == SplitOn(a, c) + SplitOn(b, c)
  {
    var s := a + [c] + b;
    if |b| == 0 {
      assert s == a + [c];
      SplitStep(s, c);
      assert DropLast(s) == a;
    } else {
      var b', x := DropLast(b), Last(b);
      var pa, pb := SplitOn(a, c), SplitOn(b', c);
      assert SplitOn(a + [c] + b', c) == pa + pb by {
        SplitAround(a, b', c);
      }
      assert DropLast(s) == a + [c] + b' && Last(s) == x;
      SplitStep(s, c);
      SplitStep(b, c);
      if x == c {
        calc {
          SplitOn(s, c);
          (pa + pb) + [""];
          pa + (pb + [""]);
          pa + SplitOn(b, c);
        }
      } else {
        calc {
          SplitOn(s, c);
          DropLast(pa + pb) + [Last(pa + pb) + [x]];
          { ExtendLast(pa, pb, x); }
          pa + (DropLast(pb) + [Last(pb) + [x]]);
          pa + SplitOn(b, c);
        }
      }
    }
  }

  /** Extending the last piece of `pa + pb` extends the last piece of `pb`. */
  lemma {:induction false} ExtendLast(pa: seq<string>, pb: seq<string>, x: char)
    requires |pb| > 0
    ensures DropLast(pa + pb) + [Last(pa + pb) + [x]] == pa + (DropLast(pb) + [Last(pb) + [x]])
  {
    assert DropLast(pa + pb) == pa + DropLast(pb);
  }

  /** The text before the first `c` (all of `s` when there is none): `s.split(c)[0]`. */
  function FirstToken(s: string, c: char): (t: string)
    ensures c !in t && |t| <= |s| && t == s[..|t|]
    ensures |t| < |s| ==> s[|t|] == c
  {
    SplitOnShape(s, c);
    SplitOn(s, c)[0]
  }

  /** `s.split(c)[1]`: the text between the first and second `c`, `undefined` (`None`) without any `c`. */
  function SecondToken(s: string, c: char): (t: Option<string>)
    ensures t.None? <==> c !in s
    ensures t.Some? ==> c !in t.value
  {
    SplitOnShape(s, c);
    var parts := SplitOn(s, c);
    if |parts| > 1 then Some(parts[1]) else None
  }

  /** Whatever follows the first separator never changes the first token. */
  lemma {:induction false} FirstTokenIgnoresRest(a: string, rest: string, c: char)
    requires c !in a
    ensures FirstToken(a + [c] + rest, c) == a
  {
    var s := a + [c] + rest;
    assert s == a + ([c] + rest);
    assert s[..|a|] == a;
    assert s[|a|] == c;
    var t := FirstToken(s, c);
    assert forall i :: 0 <= i < |t| ==> s[i] == t[i] && t[i] != c;
  }

  /** The second token of `w c y` and of `w c y c z` is `y`, for separator-free `w` and `y`. */
  lemma {:induction false} SecondTokenOf(w: string, y: string, z: string, c: char)
    requires c !in w && c !in y
    ensures SecondToken(w + [c] + y, c) == Some(y)
    ensures SecondToken(w + [c] + y + [c] + z, c) == Some(y)
  {
    SplitOnSingle(w, c);
    SplitOnSingle(y, c);
    SplitAround(w, y, c);
    SplitAround(w + [c] + y, z, c);
  }

  predicate NotComma(ch: char)
  {
    ch != ','
  }

  /** `s.replace(/,/g, "")`: every comma removed, every other character kept in order. */
  function StripCommas(s: string): (r: string)
    ensures ',' !in r
    ensures IsSubseq(r, s)
  {
    FilterIsSubseq(s, NotComma);
    Filter(s, NotComma)
  }

  /** Removing commas from comma-free text changes nothing, and only then. */
  lemma {:induction false} StripCommasIdempotent(s: string)
    ensures StripCommas(StripCommas(s)) == StripCommas(s)
    ensures StripCommas(s) == s <==> ',' !in s
  {
    FilterIdempotent(s, NotComma);
    FilterUnchangedIff(s, NotComma);
  }
}
