/** The pieces of the Kotlin standard library that the task manager relies on:
    `Char.isWhitespace`, `String.trim`, and the decimal rendering of an `Int`
    inside a string template (with a parser that reads it back). */
module Text {
  import opened Options

  /** Kotlin's `Char.isWhitespace` on the JVM: `Character.isWhitespace` or
      `Character.isSpaceChar`, i.e. the controls U+0009..U+000D and
      U+001C..U+001F together with every Unicode space, line and paragraph
      separator. */
  predicate IsWhitespace(c: char)
  {
    || ('\t' <= c <= '\r')
    || ('\U{1C}' <= c <= '\U{1F}')
    || c == ' ' || c == '\U{A0}' || c == '\U{1680}'
    || ('\U{2000}' <= c <= '\U{200A}')
    || c == '\U{2028}' || c == '\U{2029}' || c == '\U{202F}' || c == '\U{205F}'
    || c == '\U{3000}'
  }

  /** Neither end of `s` is whitespace: the shape of a trimmed string. */
  predicate NoEdgeWhitespace(s: string)
  {
    s == [] || (!IsWhitespace(s[0]) && !IsWhitespace(s[|s| - 1]))
  }

  predicate AllWhitespace(s: string)
  {
    forall k :: 0 <= k < |s| ==> IsWhitespace(s[k])
  }

  /** Kotlin's `String.trim()`: `s` without its leading and its trailing
      whitespace. */
  function Trim(s: string): (r: string)
    ensures |r| <= |s|
    ensures NoEdgeWhitespace(r)
  {
    if |s| > 0 && IsWhitespace(s[0]) then Trim(s[1..])
    else if |s| > 0 && IsWhitespace(s[|s| - 1]) then Trim(s[..|s| - 1])
    else s
  }

  /** A string without whitespace at either end is its own trim. */
  lemma TrimIdentity(s: string)
    requires NoEdgeWhitespace(s)
    ensures Trim(s) == s
  {
  }

  /** Trimming twice is trimming once. */
  lemma TrimIdempotent(s: string)
    ensures Trim(Trim(s)) == Trim(s)
  {
    TrimIdentity(Trim(s));
  }

  /** Only whitespace is cut away: the trim is a slice of `s`, and everything
      before and after it is whitespace. */
  lemma {:induction false} TrimCutsWhitespace(s: string) returns (lo: nat, hi: nat)
    ensures lo <= hi <= |s| && Trim(s) == s[lo..hi]
    ensures forall k :: 0 <= k < lo ==> IsWhitespace(s[k])
    ensures forall k :: hi <= k < |s| ==> IsWhitespace(s[k])
  {
    if |s| > 0 && IsWhitespace(s[0]) {
      var tail := s[1..];
      var lo', hi' := TrimCutsWhitespace(tail);
      lo, hi := lo' + 1, hi' + 1;
      assert tail[lo'..hi'] == s[lo..hi] by {
        forall j | 0 <= j < hi' - lo' ensures tail[lo'..hi'][j] == s[lo..hi][j] {
          assert tail[lo' + j] == s[lo + j];
        }
      }
      forall k | 0 <= k < lo ensures IsWhitespace(s[k]) {
        if k > 0 { assert tail[k - 1] == s[k]; }
      }
      forall k | hi <= k < |s| ensures IsWhitespace(s[k]) {
        assert tail[k - 1] == s[k];
      }
    } else if |s| > 0 && IsWhitespace(s[|s| - 1]) {
      var init := s[..|s| - 1];
      lo, hi := TrimCutsWhitespace(init);
      assert init[lo..hi] == s[lo..hi] by {
        forall j | 0 <= j < hi - lo ensures init[lo..hi][j] == s[lo..hi][j] {
          assert init[lo + j] == s[lo + j];
        }
      }
      assert init[0] == s[0];
      forall k | hi <= k < |s| ensures IsWhitespace(s[k]) {
        if k < |s| - 1 { assert init[k] == s[k]; }
      }
    } else {
      lo, hi := 0, |s|;
    }
  }

  /** A string trims to nothing exactly when it is all whitespace. */
  lemma TrimBlank(s: string)
    ensures Trim(s) == [] <==> AllWhitespace(s)
  {
    var lo, hi := TrimCutsWhitespace(s);
    if Trim(s) != [] {
      assert Trim(s)[0] == s[lo];
    }
  }

  predicate IsDigit(c: char)
  {
    '0' <= c <= '9'
  }

  function DigitChar(d: nat): (c: char)
    requires d < 10
    ensures IsDigit(c) && c as int - '0' as int == d
  {
    ('0' as int + d) as char
  }

  function DigitValue(c: char): (d: nat)
    requires IsDigit(c)
  {
    c as int - '0' as int
  }

  /** The decimal digits of `n`, most significant first, with no leading zero. */
  function NatToString(n: nat): (r: string)
    ensures |r| >= 1
    ensures forall k :: 0 <= k < |r| ==> IsDigit(r[k])
    ensures r[0] == '0' ==> n == 0
  {
    if n < 10 then [DigitChar(n)] else NatToString(n / 10) + [DigitChar(n % 10)]
  }

  /** Kotlin's `Int.toString()`: a minus sign for negative values, then the
      digits of the magnitude. */
  function IntToString(i: int): (r: string)
    ensures |r| >= 1
    ensures forall k :: 0 <= k < |r| ==> IsDigit(r[k]) || (k == 0 && r[k] == '-')
    ensures r[0] == '-' <==> i < 0
  {
    if i < 0 then "-" + NatToString(-i) else NatToString(i)
  }

  /** Reads a non-empty run of decimal digits; anything else is `None`. */
  function ParseNat(s: string): Option<nat>
  {
    if |s| == 0 || !IsDigit(s[|s| - 1]) then None
    else if |s| == 1 then Some(DigitValue(s[0]))
    else match ParseNat(s[..|s| - 1])
      case None => None
      case Some(m) => Some(10 * m + DigitValue(s[|s| - 1]))
  }

  /** Reads an optional minus sign followed by decimal digits. */
  function ParseInt(s: string): Option<int>
  {
    if |s| > 0 && s[0] == '-' then
      match ParseNat(s[1..])
      case None => None
      case Some(m) => Some(-(m as int))
    else
      match ParseNat(s)
      case None => None
      case Some(m) => Some(m)
  }

  lemma {:induction false} NatRoundTrip(n: nat)
    ensures ParseNat(NatToString(n)) == Some(n)
  {
    if n >= 10 {
      var p := NatToString(n / 10);
      var r := NatToString(n);
      assert r == p + [DigitChar(n % 10)];
      assert r[..|r| - 1] == p;
      NatRoundTrip(n / 10);
    }
  }

  /** Reading back the rendering of an integer gives that integer. */
  lemma IntRoundTrip(i: int)
    ensures ParseInt(IntToString(i)) == Some(i)
  {
    if i < 0 {
      assert IntToString(i)[1..] == NatToString(-i);
      NatRoundTrip(-i);
    } else {
      NatRoundTrip(i);
    }
  }
}
