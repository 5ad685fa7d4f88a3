/** The JavaScript string built-ins the route handlers rely on: `trim`,
    `toLowerCase`, `includes`, `replace` with a string pattern, `parseInt`,
    and the decimal rendering of an integer inside a template literal. */
module Text {
  import opened Wrappers

  /** The characters `String.prototype.trim` and `parseInt` skip: the
      ECMAScript WhiteSpace and LineTerminator characters. */
  const Whitespace: set<char> := {
    '\t', '\n', '\U{000B}', '\U{000C}', '\r', ' ', '\U{00A0}', '\U{1680}',
    '\U{2000}', '\U{2001}', '\U{2002}', '\U{2003}', '\U{2004}', '\U{2005}',
    '\U{2006}', '\U{2007}', '\U{2008}', '\U{2009}', '\U{200A}',
    '\U{2028}', '\U{2029}', '\U{202F}', '\U{205F}', '\U{3000}', '\U{FEFF}'
  }

  predicate IsWhitespace(c: char)
  {
    c in Whitespace
  }

  predicate AllWhitespace(s: string)
  {
    forall i :: 0 <= i < |s| ==> IsWhitespace(s[i])
  }

  /** True when `s` has no whitespace at either end. */
  predicate Clean(s: string)
  {
    s == [] || (!IsWhitespace(s[0]) && !IsWhitespace(s[|s| - 1]))
  }

  /** `s` without its leading whitespace. */
  function TrimStart(s: string): (r: string)
    ensures |r| <= |s| && r == s[|s| - |r|..]
    ensures forall i :: 0 <= i < |s| - |r| ==> IsWhitespace(s[i])
    ensures r == [] || !IsWhitespace(r[0])
  {
    if |s| > 0 && IsWhitespace(s[0]) then
      var r := TrimStart(s[1..]);
      assert forall i :: 1 <= i < |s| - |r| ==> s[i] == s[1..][i - 1];
      r
    else s
  }

  /** `s` without its trailing whitespace. */
  function TrimEnd(s: string): (r: string)
    ensures |r| <= |s| && r == s[..|r|]
    ensures forall i :: |r| <= i < |s| ==> IsWhitespace(s[i])
    ensures r == [] || !IsWhitespace(r[|r| - 1])
  {
    if |s| > 0 && IsWhitespace(s[|s| - 1]) then
      var r := TrimEnd(s[..|s| - 1]);
      assert forall i :: |r| <= i < |s| - 1 ==> s[i] == s[..|s| - 1][i];
      r
    else s
  }

  /** `String.prototype.trim`. */
  function Trim(s: string): (r: string)
    ensures |r| <= |s| && Clean(r)
    ensures Clean(s) ==> r == s
  {
    var t := TrimStart(s);
    var r := TrimEnd(t);
    assert r != [] ==> r[0] == t[0];
    assert t != [] ==> t[0] == s[|s| - |t|];
    assert s[..|s|] == s;
    r
  }

  lemma {:induction false} TrimStartSkips(w: string, x: string)
    requires AllWhitespace(w)
    ensures TrimStart(w + x) == TrimStart(x)
  {
    if w != [] {
      var y := w + x;
      assert y[0] == w[0];
      assert IsWhitespace(y[0]);
      assert y[1..] == w[1..] + x;
      assert AllWhitespace(w[1..]);
      calc {
        TrimStart(y);
        TrimStart(y[1..]);
        { TrimStartSkips(w[1..], x); }
        TrimStart(x);
      }
    } else {
      assert w + x == x;
    }
  }

  lemma {:induction false} TrimStartAppend(s: string, t: string)
    requires !AllWhitespace(s)
    ensures TrimStart(s + t) == TrimStart(s) + t
  {
    if IsWhitespace(s[0]) {
      assert (s + t)[1..] == s[1..] + t;
      TrimStartAppend(s[1..], t);
    }
  }

  lemma {:induction false} TrimEndSkips(x: string, w: string)
    requires AllWhitespace(w)
    ensures TrimEnd(x + w) == TrimEnd(x)
  {
    if w != [] {
      var y := x + w;
      var w' := w[..|w| - 1];
      assert y[|y| - 1] == w[|w| - 1];
      assert IsWhitespace(y[|y| - 1]);
      assert y[..|y| - 1] == x + w';
      assert AllWhitespace(w');
      calc {
        TrimEnd(y);
        TrimEnd(y[..|y| - 1]);
        { TrimEndSkips(x, w'); }
        TrimEnd(x);
      }
    } else {
      assert x + w == x;
    }
  }

  lemma {:induction false} TrimStartAllWhitespace(s: string)
    requires AllWhitespace(s)
    ensures TrimStart(s) == []
  {
    if s != [] {
      TrimStartAllWhitespace(s[1..]);
    }
  }

  lemma AllWhitespaceConcat(a: string, b: string)
    requires AllWhitespace(a) && AllWhitespace(b)
    ensures AllWhitespace(a + b)
  {
    forall i | 0 <= i < |a + b|
      ensures IsWhitespace((a + b)[i])
    {
      if i >= |a| {
        assert (a + b)[i] == b[i - |a|];
      }
    }
  }

  /** Whitespace padding on either side never changes what `trim` yields:
      together with `Trim`'s own contract this pins `trim` down exactly. */
  lemma TrimPadded(w1: string, s: string, w2: string)
    requires AllWhitespace(w1) && AllWhitespace(w2)
    ensures Trim(w1 + s + w2) == Trim(s)
  {
    var x := w1 + s + w2;
    assert x == w1 + (s + w2);
    TrimStartSkips(w1, s + w2);
    assert TrimStart(x) == TrimStart(s + w2);
    if AllWhitespace(s) {
      AllWhitespaceConcat(s, w2);
      TrimStartAllWhitespace(s + w2);
      TrimStartAllWhitespace(s);
      assert Trim(x) == TrimEnd([]) == Trim(s);
    } else {
      TrimStartAppend(s, w2);
      TrimEndSkips(TrimStart(s), w2);
      assert Trim(x) == TrimEnd(TrimStart(s) + w2) == Trim(s);
    }
  }

  /** Whitespace after a prefix `r` of a suffix `t` of `s` is whitespace
      after the slice `r` of `s`. */
  lemma OuterWhitespace(s: string, t: string, r: string)
    requires |t| <= |s| && t == s[|s| - |t|..]
    requires |r| <= |t| && r == t[..|r|]
    requires forall i :: |r| <= i < |t| ==> IsWhitespace(t[i])
    ensures var a := |s| - |t|;
            && s[a..a + |r|] == r
            && (forall i :: a + |r| <= i < |s| ==> IsWhitespace(s[i]))
  {
    var a := |s| - |t|;
    forall i | a + |r| <= i < |s|
      ensures IsWhitespace(s[i])
    {
      assert s[i] == t[i - a];
    }
  }

  /** `trim` removes only outer whitespace: what it returns is the slice
      of its input from `a` on, with whitespace on both sides. */
  lemma TrimSlice(s: string) returns (a: nat, r: string)
    ensures r == Trim(s)
    ensures a + |r| <= |s| && s[a..a + |r|] == r
    ensures forall i :: 0 <= i < a ==> IsWhitespace(s[i])
    ensures forall i :: a + |r| <= i < |s| ==> IsWhitespace(s[i])
  {
    var t := TrimStart(s);
    r := TrimEnd(t);
    OuterWhitespace(s, t, r);
    a := |s| - |t|;
  }

  /** `trim` keeps every character that is not whitespace. */
  lemma TrimKeeps(s: string, c: char)
    requires c in s && !IsWhitespace(c)
    ensures c in Trim(s)
  {
    var a, t := TrimSlice(s);
    var k :| 0 <= k < |s| && s[k] == c;
    assert t[k - a] == s[a..a + |t|][k - a];
  }

  /** `trim` yields the empty string exactly on all-whitespace input. */
  lemma TrimEmpty(s: string)
    ensures Trim(s) == [] <==> AllWhitespace(s)
  {
    var t := TrimStart(s);
    if t != [] {
      assert !IsWhitespace(t[0]) && t[0] == s[|s| - |t|];
      assert TrimEnd(t) != [];
    } else {
      assert s[..|s|] == s;
    }
  }

  lemma TrimIdempotent(s: string)
    ensures Trim(Trim(s)) == Trim(s)
  {
  }

  /** ASCII upper-case letters; `toLowerCase` is modelled on these only. */
  predicate IsAsciiUpper(c: char)
  {
    'A' <= c <= 'Z'
  }

  function LowerChar(c: char): (d: char)
    ensures !IsAsciiUpper(d)
    ensures IsWhitespace(d) <==> IsWhitespace(c)
    ensures !IsAsciiUpper(c) ==> d == c
    ensures IsAsciiUpper(c) ==> 'a' <= d <= 'z' && d as int - 'a' as int == c as int - 'A' as int
  {
    if IsAsciiUpper(c) then (c as int + 32) as char else c
  }

  /** `String.prototype.toLowerCase`, restricted to ASCII letters. */
  function ToLower(s: string): (r: string)
    ensures |r| == |s|
    ensures forall i :: 0 <= i < |s| ==> r[i] == LowerChar(s[i])
  {
    seq(|s|, i requires 0 <= i < |s| => LowerChar(s[i]))
  }

  /** Lower-casing keeps a string free of white space at its ends. */
  lemma ToLowerKeepsClean(s: string)
    requires Clean(s)
    ensures Clean(ToLower(s))
  {
    var r := ToLower(s);
    if r != [] {
      assert r[0] == LowerChar(s[0]) && r[|r| - 1] == LowerChar(s[|s| - 1]);
    }
  }

  /** The same letter up to ASCII case, or the same character. */
  predicate SameIgnoringCase(c: char, d: char)
  {
    || c == d
    || (IsAsciiUpper(c) && d as int == c as int + 32)
    || (IsAsciiUpper(d) && c as int == d as int + 32)
  }

  /** Two characters lower-case alike exactly when they agree up to case. */
  lemma LowerCharCollides(c: char, d: char)
    ensures LowerChar(c) == LowerChar(d) <==> SameIgnoringCase(c, d)
  {
  }

  /** Two strings lower-case alike exactly when they agree, position by
      position, up to ASCII case. */
  lemma ToLowerCollides(s: string, t: string)
    ensures ToLower(s) == ToLower(t) <==> |s| == |t| && forall i :: 0 <= i < |s| ==> SameIgnoringCase(s[i], t[i])
  {
    if |s| == |t| {
      forall i | 0 <= i < |s|
        ensures ToLower(s)[i] == ToLower(t)[i] <==> SameIgnoringCase(s[i], t[i])
      {
        LowerCharCollides(s[i], t[i]);
      }
      if ToLower(s) != ToLower(t) {
        var i :| 0 <= i < |s| && ToLower(s)[i] != ToLower(t)[i];
      }
    }
  }

  lemma ToLowerIdempotent(s: string)
    ensures ToLower(ToLower(s)) == ToLower(s)
  {
  }

  /** `pat` occurs in `s` starting at position `j`. */
  predicate OccursAt(s: string, pat: string, j: nat)
  {
    j + |pat| <= |s| && s[j..j + |pat|] == pat
  }

  lemma OccursAtTail(s: string, pat: string, j: nat)
    requires |s| > 0
    ensures OccursAt(s, pat, j + 1) <==> OccursAt(s[1..], pat, j)
  {
    if j + 1 + |pat| <= |s| {
      assert s[j + 1..j + 1 + |pat|] == s[1..][j..j + |pat|];
    }
  }

  /** `s.indexOf(pat)`: the first position at which `pat` occurs in `s`. */
  function IndexOf(s: string, pat: string): (r: Option<nat>)
    ensures r.Some? ==> OccursAt(s, pat, r.value)
    ensures r.Some? ==> forall j: nat :: j < r.value ==> !OccursAt(s, pat, j)
    ensures r.None? ==> forall j: nat :: !OccursAt(s, pat, j)
    decreases |s|
  {
    if OccursAt(s, pat, 0) then Some(0)
    else if |s| <= |pat| then None
    else
      var rest := IndexOf(s[1..], pat);
      assert forall j: nat :: OccursAt(s, pat, j + 1) <==> OccursAt(s[1..], pat, j) by {
        forall j: nat ensures OccursAt(s, pat, j + 1) <==> OccursAt(s[1..], pat, j) {
          OccursAtTail(s, pat, j);
        }
      }
      assert forall j: nat :: j > 0 ==> (OccursAt(s, pat, j) <==> OccursAt(s[1..], pat, j - 1)) by {
        forall j: nat | j > 0 ensures OccursAt(s, pat, j) <==> OccursAt(s[1..], pat, j - 1) {
          OccursAtTail(s, pat, j - 1);
        }
      }
      match rest
      case Some(i) => Some(i + 1)
      case None => None
  }

  /** `s.includes(sub)`. */
  predicate Includes(s: string, sub: string)
  {
    IndexOf(s, sub).Some?
  }

  lemma IncludesChar(s: string, c: char)
    ensures Includes(s, [c]) <==> c in s
  {
    if c in s {
      var j :| 0 <= j < |s| && s[j] == c;
      assert OccursAt(s, [c], j);
    }
    if Includes(s, [c]) {
      var j := IndexOf(s, [c]).value;
      assert s[j..j + 1] == [c];
      assert s[j] == s[j..j + 1][0];
    }
  }

  lemma IncludesAt(s: string, sub: string, j: nat)
    requires OccursAt(s, sub, j)
    ensures Includes(s, sub)
  {
  }

  /** A pattern whose first character does not occur in `s` does not occur in it. */
  lemma ExcludesByFirst(s: string, pat: string)
    requires |pat| > 0 && pat[0] !in s
    ensures !Includes(s, pat)
  {
    forall j: nat ensures !OccursAt(s, pat, j) {
      if j + |pat| <= |s| {
        assert s[j..j + |pat|][0] == s[j];
      }
    }
  }

  /** `s.replace(pat, rep)` with a string pattern: only the first occurrence
      is replaced, and `s` is returned as it is when there is none. */
  function ReplaceFirst(s: string, pat: string, rep: string): (r: string)
    ensures !Includes(s, pat) ==> r == s
    ensures Includes(s, pat) ==> |r| == |s| - |pat| + |rep| && Includes(r, rep)
  {
    match IndexOf(s, pat)
    case Some(i) =>
      var r := s[..i] + rep + s[i + |pat|..];
      assert r[i..i + |rep|] == rep;
      IncludesAt(r, rep, i);
      r
    case None => s
  }

  lemma ReplaceFirstAbsent(s: string, pat: string, rep: string)
    requires !Includes(s, pat)
    ensures ReplaceFirst(s, pat, rep) == s
  {
  }

  /** `replace` swaps the first occurrence for the replacement and keeps the
      text before and after it. */
  lemma ReplaceFirstAt(s: string, pat: string, rep: string, i: nat)
    requires OccursAt(s, pat, i)
    requires forall j: nat :: j < i ==> !OccursAt(s, pat, j)
    ensures ReplaceFirst(s, pat, rep) == s[..i] + rep + s[i + |pat|..]
  {
    var k := IndexOf(s, pat);
    assert k.Some?;
    assert !(k.value < i) && !(i < k.value);
  }

  /** Removing a prefix that is the pattern itself leaves the rest. */
  lemma ReplaceFirstPrefix(pat: string, t: string)
    ensures ReplaceFirst(pat + t, pat, "") == t
  {
    assert OccursAt(pat + t, pat, 0);
    assert (pat + t)[|pat|..] == t;
  }

  // ---------------------------------------------------------------------
  // parseInt and decimal rendering

  /** Digit value of `c` in radices up to 36, or 36 when `c` is no digit. */
  function DigitValue(c: char): (d: nat)
    ensures d <= 36
  {
    if '0' <= c <= '9' then c as int - '0' as int
    else if 'a' <= c <= 'z' then c as int - 'a' as int + 10
    else if 'A' <= c <= 'Z' then c as int - 'A' as int + 10
    else 36
  }

  predicate IsDigitIn(c: char, radix: nat)
  {
    DigitValue(c) < radix
  }

  /** Length of the longest prefix of `s` made of digits in `radix`. */
  function DigitRun(s: string, radix: nat): (n: nat)
    ensures n <= |s|
    ensures forall i :: 0 <= i < n ==> IsDigitIn(s[i], radix)
    ensures n < |s| ==> !IsDigitIn(s[n], radix)
  {
    if |s| > 0 && IsDigitIn(s[0], radix) then 1 + DigitRun(s[1..], radix) else 0
  }

  lemma ProductNat(a: nat, b: nat)
    ensures a * b >= 0
  {
  }

  /** The number a digit string denotes, most significant digit first. */
  function DigitsValue(ds: string, radix: nat): nat
    requires forall i :: 0 <= i < |ds| ==> IsDigitIn(ds[i], radix)
  {
    if |ds| == 0 then 0
    else
      var init := ds[..|ds| - 1];
      assert forall i :: 0 <= i < |init| ==> init[i] == ds[i];
      var high := DigitsValue(init, radix);
      ProductNat(high, radix);
      high * radix + DigitValue(ds[|ds| - 1])
  }

  /** True when `u` starts with the `0x` / `0X` prefix `parseInt` reads as hexadecimal. */
  predicate HexPrefixed(u: string)
  {
    |u| >= 2 && u[0] == '0' && (u[1] == 'x' || u[1] == 'X')
  }

  /** The text `parseInt` reads digits from: leading whitespace, one sign
      and a hexadecimal prefix taken off. */
  function DigitsPart(s: string): string
  {
    var t := TrimStart(s);
    var u := if |t| > 0 && (t[0] == '-' || t[0] == '+') then t[1..] else t;
    if HexPrefixed(u) then u[2..] else u
  }

  function Radix(s: string): nat
  {
    var t := TrimStart(s);
    var u := if |t| > 0 && (t[0] == '-' || t[0] == '+') then t[1..] else t;
    if HexPrefixed(u) then 16 else 10
  }

  /** True when the text after the leading white space starts with `-`. */
  predicate StartsNegative(s: string)
  {
    var t := TrimStart(s);
    |t| > 0 && t[0] == '-'
  }

  function Signed(negative: bool, v: nat): int
  {
    if negative then -(v as int) else v
  }

  /** `parseInt(s)` without a radix argument; `None` stands for `NaN`. */
  function ParseInt(s: string): (r: Option<int>)
    ensures r.None? <==> DigitRun(DigitsPart(s), Radix(s)) == 0
  {
    var body := DigitsPart(s);
    var n := DigitRun(body, Radix(s));
    if n == 0 then None
    else Some(Signed(StartsNegative(s), DigitsValue(body[..n], Radix(s))))
  }

  function DigitChar(d: nat): (c: char)
    requires d < 10
    ensures '0' <= c <= '9' && DigitValue(c) == d
  {
    ('0' as int + d) as char
  }

  /** The decimal digits of `n`, without leading zeros. */
  function NatString(n: nat): (s: string)
    ensures |s| > 0
    ensures forall i :: 0 <= i < |s| ==> '0' <= s[i] <= '9'
    ensures s[0] == '0' ==> n == 0 && |s| == 1
  {
    if n < 10 then [DigitChar(n)] else NatString(n / 10) + [DigitChar(n % 10)]
  }

  /** How a template literal renders an integer. */
  function DecimalString(n: int): (s: string)
    ensures |s| > 0
    ensures s[0] == '-' <==> n < 0
  {
    if n < 0 then "-" + NatString(-n) else NatString(n)
  }

  lemma {:induction false} NatStringValue(n: nat)
    ensures DigitsValue(NatString(n), 10) == n
  {
    var s := NatString(n);
    if n >= 10 {
      assert s[..|s| - 1] == NatString(n / 10);
      NatStringValue(n / 10);
    }
  }

  lemma SignOrDigitNotWhitespace(c: char)
    requires c == '-' || '0' <= c <= '9'
    ensures !IsWhitespace(c)
  {
  }

  /** A string of decimal digits is read whole. */
  lemma DigitRunAll(u: string)
    requires forall i :: 0 <= i < |u| ==> '0' <= u[i] <= '9'
    ensures DigitRun(u, 10) == |u|
  {
    var k := DigitRun(u, 10);
    if k < |u| {
      assert IsDigitIn(u[k], 10);
    }
  }

  /** How `parseInt` splits a rendered integer: no white space, the sign,
      then the digits in base 10. */
  lemma DecimalStringParts(n: int)
    ensures var s := DecimalString(n);
            var u := NatString(if n < 0 then -n else n);
            && TrimStart(s) == s && DigitsPart(s) == u && Radix(s) == 10
            && (|s| > 0 && s[0] == '-' <==> n < 0)
  {
    var s := DecimalString(n);
    var u := NatString(if n < 0 then -n else n);
    SignOrDigitNotWhitespace(s[0]);
    assert TrimStart(s) == s;
    assert n < 0 ==> s[1..] == u;
    assert !HexPrefixed(u);
  }

  /** `parseInt` of a string whose digit part is all digits. */
  lemma ParseIntWhole(s: string)
    requires DigitRun(DigitsPart(s), Radix(s)) == |DigitsPart(s)| > 0
    ensures ParseInt(s) == Some(Signed(StartsNegative(s), DigitsValue(DigitsPart(s), Radix(s))))
  {
    var body := DigitsPart(s);
    assert body[..DigitRun(body, Radix(s))] == body;
  }

  /** `parseInt` reads back every integer rendered in decimal. */
  lemma ParseIntDecimal(n: int)
    ensures ParseInt(DecimalString(n)) == Some(n)
  {
    var m: nat := if n < 0 then -n else n;
    var u := NatString(m);
    DecimalStringParts(n);
    DigitRunAll(u);
    ParseIntWhole(DecimalString(n));
    NatStringValue(m);
  }
}
