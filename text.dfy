/**
 * String helpers with JavaScript semantics: the white-space set shared by the
 * regular-expression class `\s` and `String.prototype.trim`, trimming, and
 * `String.prototype.split` with a one-character separator, and `Number` on strings of digits.
 */
module Text {
  import opened Common

  /** ECMAScript WhiteSpace and LineTerminator code points (the set `\s` and `trim` use). */
  predicate IsWhitespace(c: char)
  {
    c == '\t' || c == '\n' || c == '\U{000B}' || c == '\U{000C}' || c == '\r' || c == ' '
    || c == '\U{00A0}' || c == '\U{1680}' || ('\U{2000}' <= c <= '\U{200A}')
    || c == '\U{2028}' || c == '\U{2029}' || c == '\U{202F}' || c == '\U{205F}'
    || c == '\U{3000}' || c == '\U{FEFF}'
  }

  predicate AllWhitespace(s: string)
  {
    forall i :: 0 <= i < |s| ==> IsWhitespace(s[i])
  }

  /** Removes leading white space: the result is a suffix of `s`, everything removed is white space. */
  function TrimStart(s: string): (r: string)
    ensures |r| <= |s| && r == s[|s| - |r|..]
    ensures forall i :: 0 <= i < |s| - |r| ==> IsWhitespace(s[i])
    ensures r == [] || !IsWhitespace(r[0])
  {
    if s != [] && IsWhitespace(s[0]) then TrimStart(s[1..]) else s
  }

  /** Removes trailing white space: the result is a prefix of `s`, everything removed is white space. */
  function TrimEnd(s: string): (r: string)
    ensures |r| <= |s| && r == s[..|r|]
    ensures forall i :: |r| <= i < |s| ==> IsWhitespace(s[i])
    ensures r == [] || !IsWhitespace(r[|r| - 1])
  {
    if s != [] && IsWhitespace(s[|s| - 1]) then TrimEnd(s[..|s| - 1]) else s
  }

  /** `String.prototype.trim`. */
  function Trim(s: string): (r: string)
    ensures |r| <= |s|
    ensures r == [] || (!IsWhitespace(r[0]) && !IsWhitespace(r[|r| - 1]))
    ensures (s == [] || (!IsWhitespace(s[0]) && !IsWhitespace(s[|s| - 1]))) ==> r == s
  {
    TrimEnd(TrimStart(s))
  }

  lemma {:induction false} TrimStartOfWhitespacePrefix(w: string, x: string)
    requires AllWhitespace(w)
    ensures TrimStart(w + x) == TrimStart(x)
  {
    if w != [] {
      assert (w + x)[0] == w[0] && IsWhitespace(w[0]);
      assert (w + x)[1..] == w[1..] + x;
      assert AllWhitespace(w[1..]) by {
        forall i | 0 <= i < |w| - 1 ensures IsWhitespace(w[1..][i]) { assert w[1..][i] == w[i + 1]; }
      }
      TrimStartOfWhitespacePrefix(w[1..], x);
    } else {
      assert w + x == x;
    }
  }

  lemma {:induction false} TrimEndOfWhitespaceSuffix(x: string, w: string)
    requires AllWhitespace(w)
    ensures TrimEnd(x + w) == TrimEnd(x)
  {
    if w != [] {
      assert (x + w)[|x + w| - 1] == w[|w| - 1] && IsWhitespace(w[|w| - 1]);
      assert (x + w)[..|x + w| - 1] == x + w[..|w| - 1];
      assert AllWhitespace(w[..|w| - 1]) by {
        var v := w[..|w| - 1];
        forall i | 0 <= i < |v| ensures IsWhitespace(v[i]) { assert v[i] == w[i]; }
      }
      TrimEndOfWhitespaceSuffix(x, w[..|w| - 1]);
    } else {
      assert x + w == x;
    }
  }

  lemma {:induction false} TrimStartAppend(s: string, t: string)
    requires !AllWhitespace(s)
    ensures TrimStart(s + t) == TrimStart(s) + t
  {
    assert s != [];
    if IsWhitespace(s[0]) {
      assert (s + t)[1..] == s[1..] + t;
      assert !AllWhitespace(s[1..]) by {
        var i :| 0 <= i < |s| && !IsWhitespace(s[i]);
        assert s[1..][i - 1] == s[i];
      }
      TrimStartAppend(s[1..], t);
    }
  }

  /** Trimming removes exactly the white space; a string is blank iff it trims to "". */
  lemma TrimEmptyIffBlank(s: string)
    ensures Trim(s) == [] <==> AllWhitespace(s)
  {
    if AllWhitespace(s) {
      assert TrimStart(s) == [] by {
        TrimStartOfWhitespacePrefix(s, []);
        assert s + [] == s;
      }
    } else {
      var i :| 0 <= i < |s| && !IsWhitespace(s[i]);
      var t := TrimStart(s);
      assert |t| > 0 && !IsWhitespace(t[0]);
    }
  }

  lemma AllWhitespaceAppend(s: string, w: string)
    requires AllWhitespace(s) && AllWhitespace(w)
    ensures AllWhitespace(s + w)
  {
    forall i | 0 <= i < |s + w| ensures IsWhitespace((s + w)[i]) {
      if i < |s| { assert (s + w)[i] == s[i]; } else { assert (s + w)[i] == w[i - |s|]; }
    }
  }

  lemma TrimBlank(s: string)
    requires AllWhitespace(s)
    ensures Trim(s) == []
  {
    TrimEmptyIffBlank(s);
  }

  /** Padding with white space on either side does not change the trimmed text. */
  lemma TrimIgnoresPadding(w1: string, s: string, w2: string)
    requires AllWhitespace(w1) && AllWhitespace(w2)
    ensures Trim(w1 + s + w2) == Trim(s)
  {
    assert w1 + s + w2 == w1 + (s + w2);
    TrimStartOfWhitespacePrefix(w1, s + w2);
    assert Trim(w1 + s + w2) == Trim(s + w2);
    if AllWhitespace(s) {
      AllWhitespaceAppend(s, w2);
      TrimBlank(s + w2);
      TrimBlank(s);
    } else {
      TrimStartAppend(s, w2);
      TrimEndOfWhitespaceSuffix(TrimStart(s), w2);
    }
  }

  /** First index at or after `from` holding `c`, or `|s|` when there is none. */
  function IndexOfFrom(s: string, c: char, from: nat): (k: nat)
    requires from <= |s|
    ensures from <= k <= |s|
    ensures k < |s| ==> s[k] == c
    ensures forall i :: from <= i < k ==> s[i] != c
    decreases |s| - from
  {
    if from == |s| || s[from] == c then from else IndexOfFrom(s, c, from + 1)
  }

  /** `String.prototype.split` with a one-character separator: the pieces between separators. */
  function SplitOn(s: string, c: char): (pieces: seq<string>)
    ensures |pieces| >= 1
    ensures c !in s ==> pieces == [s]
    decreases |s|
  {
    var k := IndexOfFrom(s, c, 0);
    if k == |s| then [s] else [s[..k]] + SplitOn(s[k + 1..], c)
  }

  lemma {:induction false} FirstIndexOf(a: string, b: string, c: char)
    requires c !in a
    ensures IndexOfFrom(a + [c] + b, c, 0) == |a|
  {
    var s := a + [c] + b;
    assert s[|a|] == c;
    assert forall i :: 0 <= i < |a| ==> s[i] == a[i];
  }

  /** Splitting at the first separator. */
  lemma SplitAtFirst(a: string, b: string, c: char)
    requires c !in a
    ensures SplitOn(a + [c] + b, c) == [a] + SplitOn(b, c)
  {
    var s := a + [c] + b;
    FirstIndexOf(a, b, c);
    assert s[..|a|] == a;
    assert s[|a| + 1..] == b;
  }

  /** The first piece of a split stops before the first separator. */
  lemma {:induction false} FirstPieceIsPrefix(s: string, c: char)
    ensures SplitOn(s, c)[0] == s[..IndexOfFrom(s, c, 0)]
  {
  }

  function DigitsValue(s: string): nat
    requires forall i :: 0 <= i < |s| ==> '0' <= s[i] <= '9'
  {
    if s == [] then 0 else 10 * DigitsValue(s[..|s| - 1]) + (s[|s| - 1] as int - '0' as int)
  }

  /**
   * `Number(s)` for strings: blank is 0 and a run of decimal digits is its value; every
   * other string is NaN (None) in this model.
   */
  function StringToNumber(s: string): Option<real>
  {
    var t := Trim(s);
    if t == [] then Some(0.0)
    else if forall i :: 0 <= i < |t| ==> '0' <= t[i] <= '9' then Some(DigitsValue(t) as real)
    else None
  }

  /** The decimal digits of a natural number, as `String(n)` writes them. */
  function NatToString(n: nat): (s: string)
    ensures s != [] && forall i :: 0 <= i < |s| ==> '0' <= s[i] <= '9'
  {
    (if n < 10 then [] else NatToString(n / 10)) + [(('0' as int) + n % 10) as char]
  }

  lemma DigitsValueSnoc(s: string, c: char)
    requires forall i :: 0 <= i < |s| ==> '0' <= s[i] <= '9'
    requires '0' <= c <= '9'
    ensures DigitsValue(s + [c]) == 10 * DigitsValue(s) + (c as int - '0' as int)
  {
    assert (s + [c])[..|s|] == s;
  }

  /** The digits of a natural number have that number as their value. */
  lemma {:induction false} NatToStringValue(n: nat)
    ensures DigitsValue(NatToString(n)) == n
  {
    var c := (('0' as int) + n % 10) as char;
    if n < 10 {
      assert NatToString(n) == [] + [c];
      DigitsValueSnoc([], c);
    } else {
      NatToStringValue(n / 10);
      assert NatToString(n) == NatToString(n / 10) + [c];
      DigitsValueSnoc(NatToString(n / 10), c);
    }
  }

  /** A non-empty run of digits reads as its decimal value. */
  lemma DigitsNumber(s: string)
    requires s != [] && forall i :: 0 <= i < |s| ==> '0' <= s[i] <= '9'
    ensures StringToNumber(s) == Some(DigitsValue(s) as real)
  {
    assert !IsWhitespace(s[0]) && !IsWhitespace(s[|s| - 1]);
  }

  /** `Number(String(n)) == n` for every natural number. */
  lemma NatToStringRoundTrip(n: nat)
    ensures StringToNumber(NatToString(n)) == Some(n as real)
  {
    NatToStringValue(n);
    DigitsNumber(NatToString(n));
  }
}
