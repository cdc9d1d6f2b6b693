/**
 * The pieces of the JavaScript string runtime that the blog, logo and comment
 * code build on: `toLowerCase` on ASCII letters, the `\s` character class and
 * `trim`, the `/-+/g -> "-"` rewrite, and the decimal rendering of a count in a
 * template literal.
 */
module JsStrings {

  /** The characters matched by `\s` and removed by `trim`: ECMAScript's
      WhiteSpace and LineTerminator code points. */
  predicate IsWhitespace(c: char) {
    var n := c as int;
    n == 0x09 || n == 0x0A || n == 0x0B || n == 0x0C || n == 0x0D || n == 0x20
    || n == 0xA0 || n == 0x1680 || (0x2000 <= n <= 0x200A) || n == 0x2028
    || n == 0x2029 || n == 0x202F || n == 0x205F || n == 0x3000 || n == 0xFEFF
  }

  /** The class `[a-z0-9]`. */
  predicate IsLowerAlnum(c: char) {
    ('a' <= c <= 'z') || ('0' <= c <= '9')
  }

  /** The class `[a-z0-9-]`: what a slug and a logo file name are made of. */
  predicate IsLowerAlnumOrHyphen(c: char) {
    IsLowerAlnum(c) || c == '-'
  }

  predicate IsUpperAscii(c: char) {
    'A' <= c <= 'Z'
  }

  /** `toLowerCase` of one character, on the ASCII range. */
  function ToLowerChar(c: char): (r: char)
    ensures IsUpperAscii(c) ==> 'a' <= r <= 'z' && r as int == c as int + 32
    ensures !IsUpperAscii(c) ==> r == c
  {
    if IsUpperAscii(c) then (c as int + 32) as char else c
  }

  /** `toUpperCase` of one character, on the ASCII range. */
  function ToUpperChar(c: char): (r: char)
    ensures 'a' <= c <= 'z' ==> IsUpperAscii(r) && r as int == c as int - 32
    ensures !('a' <= c <= 'z') ==> r == c
  {
    if 'a' <= c <= 'z' then (c as int - 32) as char else c
  }

  /** `s.toLowerCase()`, with every character mapped on its own. */
  function ToLower(s: string): (r: string)
    ensures |r| == |s|
    ensures forall i :: 0 <= i < |s| ==> r[i] == ToLowerChar(s[i])
  {
    if s == [] then [] else [ToLowerChar(s[0])] + ToLower(s[1..])
  }

  /** Lowercasing leaves a string with no upper-case ASCII letter unchanged. */
  lemma ToLowerIdentity(s: string)
    requires forall i :: 0 <= i < |s| ==> !IsUpperAscii(s[i])
    ensures ToLower(s) == s
  {
  }

  /** The letters and digits of a string, in order. */
  function AlnumOf(s: string): (r: string)
    ensures |r| <= |s|
    ensures forall i :: 0 <= i < |r| ==> IsLowerAlnum(r[i])
  {
    if s == [] then []
    else if IsLowerAlnum(s[0]) then [s[0]] + AlnumOf(s[1..])
    else AlnumOf(s[1..])
  }

  lemma {:induction false} AlnumOfAppend(a: string, b: string)
    ensures AlnumOf(a + b) == AlnumOf(a) + AlnumOf(b)
  {
    if a != [] {
      assert (a + b)[0] == a[0] && (a + b)[1..] == a[1..] + b;
      AlnumOfAppend(a[1..], b);
    } else {
      assert a + b == b;
    }
  }

  /** A string of letters and digits only is its own `AlnumOf`. */
  lemma {:induction false} AlnumOfIdentity(s: string)
    requires forall i :: 0 <= i < |s| ==> IsLowerAlnum(s[i])
    ensures AlnumOf(s) == s
  {
    if s != [] {
      AlnumOfIdentity(s[1..]);
    }
  }

  /** Number of occurrences of `c` in `s`. */
  function CountChar(s: string, c: char): nat {
    if s == [] then 0 else (if s[0] == c then 1 else 0) + CountChar(s[1..], c)
  }

  lemma {:induction false} CountCharAppend(a: string, b: string, c: char)
    ensures CountChar(a + b, c) == CountChar(a, c) + CountChar(b, c)
  {
    if a == [] {
      assert a + b == b;
    } else {
      assert (a + b)[0] == a[0] && (a + b)[1..] == a[1..] + b;
      CountCharAppend(a[1..], b, c);
    }
  }

  /** No two hyphens side by side. */
  predicate NoDoubleHyphen(s: string) {
    forall i :: 0 <= i < |s| - 1 ==> !(s[i] == '-' && s[i + 1] == '-')
  }

  /**
   * `s.replace(/-+/g, "-")`: every maximal run of hyphens becomes one hyphen.
   * A hyphen followed by another hyphen is dropped; the last of a run stays.
   */
  function CollapseHyphens(s: string): (r: string)
    ensures NoDoubleHyphen(r)
    ensures |r| <= |s|
    ensures forall i :: 0 <= i < |r| ==> r[i] in s
    ensures s != [] ==> r != [] && r[0] == s[0] && r[|r| - 1] == s[|s| - 1]
  {
    if s == [] then []
    else if s[0] == '-' && |s| > 1 && s[1] == '-' then CollapseHyphens(s[1..])
    else [s[0]] + CollapseHyphens(s[1..])
  }

  /** A string with no run of two hyphens is left as it is. */
  lemma {:induction false} CollapseHyphensIdentity(s: string)
    requires NoDoubleHyphen(s)
    ensures CollapseHyphens(s) == s
  {
    if s != [] {
      CollapseHyphensIdentity(s[1..]);
    }
  }

  /** Collapsing hyphens keeps every letter and digit, in order. */
  lemma {:induction false} CollapseHyphensKeepsAlnum(s: string)
    ensures AlnumOf(CollapseHyphens(s)) == AlnumOf(s)
  {
    if s != [] {
      CollapseHyphensKeepsAlnum(s[1..]);
    }
  }

  lemma ConcatAssoc(x: string, y: string, z: string)
    ensures x + (y + z) == (x + y) + z
  {
  }

  /** Collapsing works run by run: a boundary that does not fall inside a run
      of hyphens splits the result. */
  lemma {:induction false} CollapseHyphensSplit(a: string, b: string)
    requires a == [] || b == [] || a[|a| - 1] != '-' || b[0] != '-'
    ensures CollapseHyphens(a + b) == CollapseHyphens(a) + CollapseHyphens(b)
  {
    if a == [] {
      assert a + b == b;
    } else {
      var t := a[1..];
      ConcatTail(a, b);
      CollapseHyphensSplit(t, b);
      if t == [] {
        assert t + b == b;
      } else {
        assert (a + b)[1] == a[1];
      }
      ConcatAssoc([a[0]], CollapseHyphens(t), CollapseHyphens(b));
    }
  }

  /** Dropping the head of a non-empty left operand. */
  lemma ConcatTail(a: string, b: string)
    requires a != []
    ensures (a + b)[0] == a[0] && (a + b)[1..] == a[1..] + b
  {
  }

  /** A non-empty run of hyphens becomes exactly one hyphen. */
  lemma {:induction false} CollapseHyphensRun(w: string)
    requires w != [] && forall i :: 0 <= i < |w| ==> w[i] == '-'
    ensures CollapseHyphens(w) == "-"
  {
    if |w| > 1 {
      CollapseHyphensRun(w[1..]);
    }
  }

  /** A run of hyphens between two words of letters and digits becomes one hyphen. */
  lemma CollapseRunBetweenWords(a: string, w: string, b: string)
    requires forall i :: 0 <= i < |a| ==> IsLowerAlnum(a[i])
    requires forall i :: 0 <= i < |b| ==> IsLowerAlnum(b[i])
    requires w != [] && forall i :: 0 <= i < |w| ==> w[i] == '-'
    ensures CollapseHyphens(a + w + b) == a + "-" + b
  {
    CollapseHyphensSplit(a, w + b);
    CollapseHyphensSplit(w, b);
    CollapseHyphensRun(w);
    CollapseHyphensIdentity(a);
    CollapseHyphensIdentity(b);
    ConcatAssoc(a, w, b);
    ConcatAssoc(a, "-", b);
  }

  /** Lowercasing works character by character, so it splits over concatenation. */
  lemma ToLowerAppend(a: string, b: string)
    ensures ToLower(a + b) == ToLower(a) + ToLower(b)
  {
    assert forall i :: 0 <= i < |a + b| ==> ToLower(a + b)[i] == (ToLower(a) + ToLower(b))[i];
  }

  /** Letters and digits are not whitespace. */
  lemma WordHasNoWhitespace(s: string)
    requires forall i :: 0 <= i < |s| ==> IsLowerAlnum(s[i])
    ensures forall i :: 0 <= i < |s| ==> !IsWhitespace(s[i])
  {
  }

  /** A word of letters and digits has no double hyphen. */
  lemma WordHasNoDoubleHyphen(s: string)
    requires forall i :: 0 <= i < |s| ==> IsLowerAlnum(s[i])
    ensures NoDoubleHyphen(s)
  {
  }

  /** Two words of letters and digits joined by one hyphen have no double hyphen. */
  lemma OneHyphenBetweenWords(a: string, b: string)
    requires forall i :: 0 <= i < |a| ==> IsLowerAlnum(a[i])
    requires forall i :: 0 <= i < |b| ==> IsLowerAlnum(b[i])
    ensures NoDoubleHyphen(a + "-" + b)
  {
    var h := a + "-" + b;
    forall i | 0 <= i < |h| - 1 ensures !(h[i] == '-' && h[i + 1] == '-') {
      if i < |a| {
        assert h[i] == a[i];
      } else {
        assert h[i + 1] == b[i - |a|];
      }
    }
  }

  /** `s.trimStart()`: the suffix left after dropping leading whitespace. */
  function TrimStart(s: string): (r: string)
    ensures |r| <= |s| && r == s[|s| - |r|..]
    ensures forall i :: 0 <= i < |s| - |r| ==> IsWhitespace(s[i])
    ensures r != [] ==> !IsWhitespace(r[0])
  {
    if s != [] && IsWhitespace(s[0]) then TrimStart(s[1..]) else s
  }

  /** `s.trimEnd()`: the prefix left after dropping trailing whitespace. */
  function TrimEnd(s: string): (r: string)
    ensures |r| <= |s| && r == s[..|r|]
    ensures forall i :: |r| <= i < |s| ==> IsWhitespace(s[i])
    ensures r != [] ==> !IsWhitespace(r[|r| - 1])
  {
    if s != [] && IsWhitespace(s[|s| - 1]) then TrimEnd(s[..|s| - 1]) else s
  }

  /** `s.trim()`. */
  function Trim(s: string): string {
    TrimEnd(TrimStart(s))
  }

  /** `trim` yields the empty string exactly when every character is whitespace. */
  lemma TrimEmptyIffBlank(s: string)
    ensures Trim(s) == "" <==> forall i :: 0 <= i < |s| ==> IsWhitespace(s[i])
  {
    if Trim(s) == "" {
      assert TrimStart(s) == [];
    }
  }

  /** `trim` returns a string with no whitespace at either end unchanged. */
  lemma TrimIdentity(s: string)
    requires s == [] || (!IsWhitespace(s[0]) && !IsWhitespace(s[|s| - 1]))
    ensures Trim(s) == s
  {
  }

  /** A digit character for 0..9. */
  function DigitChar(d: nat): (c: char)
    requires d < 10
    ensures '0' <= c <= '9'
  {
    ('0' as int + d) as char
  }

  /** The decimal rendering of a natural number, as `${n}` prints it. */
  function DecimalString(n: nat): (s: string)
    ensures |s| >= 1
    ensures forall i :: 0 <= i < |s| ==> '0' <= s[i] <= '9'
    ensures |s| > 1 ==> s[0] != '0'
  {
    if n < 10 then [DigitChar(n)] else DecimalString(n / 10) + [DigitChar(n % 10)]
  }

  /** The number a string of decimal digits denotes. */
  function DecimalValue(s: string): nat
    requires forall i :: 0 <= i < |s| ==> '0' <= s[i] <= '9'
  {
    if s == [] then 0
    else DecimalValue(s[..|s| - 1]) * 10 + (s[|s| - 1] as int - '0' as int)
  }

  /** Reading back a rendered count gives the count. */
  lemma {:induction false} DecimalRoundTrip(n: nat)
    ensures DecimalValue(DecimalString(n)) == n
  {
    var s := DecimalString(n);
    if n >= 10 {
      DecimalRoundTrip(n / 10);
      assert s[..|s| - 1] == DecimalString(n / 10);
    }
  }
}
