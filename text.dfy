/** ASCII stand-ins for the JavaScript string operations the application uses:
    `toLowerCase`, `trim`, the regular-expression classes `\s` and `\w`,
    `split(c)[0]`, `split(c).pop()`, `slice(0, n)` and number-to-decimal
    interpolation. */
module Text {

  /** `\s`, and what `String.prototype.trim` removes, restricted to ASCII:
      space, tab, line feed, vertical tab, form feed and carriage return. */
  predicate IsSpace(c: char) { c == ' ' || 9 <= c as int <= 13 }

  predicate IsUpper(c: char) { 'A' <= c <= 'Z' }
  predicate IsLower(c: char) { 'a' <= c <= 'z' }
  predicate IsDigit(c: char) { '0' <= c <= '9' }

  /** `\w`: [A-Za-z0-9_]. */
  predicate IsWordChar(c: char) { IsUpper(c) || IsLower(c) || IsDigit(c) || c == '_' }

  predicate AllDigits(s: string) { forall i :: 0 <= i < |s| ==> IsDigit(s[i]) }

  /** A string that `trim()` reduces to the empty string. */
  predicate IsBlank(s: string) { forall i :: 0 <= i < |s| ==> IsSpace(s[i]) }

  function LowerChar(c: char): (r: char)
    ensures !IsUpper(r)
    ensures IsUpper(c) ==> IsLower(r)
    ensures !IsUpper(c) ==> r == c
  {
    if IsUpper(c) then (c as int + 32) as char else c
  }

  /** `toLowerCase()` on ASCII text. */
  function ToLower(s: string): (r: string)
    ensures |r| == |s|
    ensures forall i :: 0 <= i < |s| ==> r[i] == LowerChar(s[i])
  {
    seq(|s|, i requires 0 <= i < |s| => LowerChar(s[i]))
  }

  lemma ToLowerIdentity(s: string)
    requires forall i :: 0 <= i < |s| ==> !IsUpper(s[i])
    ensures ToLower(s) == s
  {
    assert forall i :: 0 <= i < |s| ==> ToLower(s)[i] == s[i];
  }

  /** Removes the longest prefix whose characters all satisfy `p`. */
  function DropRun(s: string, p: char -> bool): (r: string)
    ensures |r| <= |s|
    ensures s != [] && p(s[0]) ==> |r| < |s|
  {
    if s != [] && p(s[0]) then DropRun(s[1..], p) else s
  }

  /** What `DropRun` cuts is all `p`, and what it leaves is the rest of the
      string, starting with a character that is not `p`. */
  lemma {:induction false} DropRunSpec(s: string, p: char -> bool)
    ensures var r := DropRun(s, p);
            && r == s[|s| - |r|..]
            && (r == [] || !p(r[0]))
            && (forall i :: 0 <= i < |s| - |r| ==> p(s[i]))
  {
    if s != [] && p(s[0]) {
      DropRunSpec(s[1..], p);
    }
  }

  /** Removes the longest suffix whose characters all satisfy `p`. */
  function DropRunEnd(s: string, p: char -> bool): (r: string)
    ensures |r| <= |s|
  {
    if s != [] && p(s[|s| - 1]) then DropRunEnd(s[..|s| - 1], p) else s
  }

  lemma {:induction false} DropRunEndSpec(s: string, p: char -> bool)
    ensures var r := DropRunEnd(s, p);
            && r == s[..|r|]
            && (r == [] || !p(r[|r| - 1]))
            && (forall i :: |r| <= i < |s| ==> p(s[i]))
  {
    if s != [] && p(s[|s| - 1]) {
      DropRunEndSpec(s[..|s| - 1], p);
    }
  }

  /** `trim()`: leading then trailing white space removed. */
  function Trim(s: string): (r: string)
  {
    DropRunEnd(DropRun(s, IsSpace), IsSpace)
  }

  /** What `trim()` leaves is a contiguous piece of the input, it neither starts
      nor ends with white space, and only white space was cut on either side;
      it is empty exactly when the input is blank. */
  lemma TrimSpec(s: string)
    ensures exists a, b :: 0 <= a <= b <= |s| && Trim(s) == s[a..b]
                          && (forall i :: 0 <= i < a ==> IsSpace(s[i]))
                          && (forall i :: b <= i < |s| ==> IsSpace(s[i]))
    ensures Trim(s) == [] || (!IsSpace(Trim(s)[0]) && !IsSpace(Trim(s)[|Trim(s)| - 1]))
    ensures Trim(s) == [] <==> IsBlank(s)
  {
    var t := DropRun(s, IsSpace);
    DropRunSpec(s, IsSpace);
    DropRunEndSpec(t, IsSpace);
    var r := Trim(s);
    var a := |s| - |t|;
    var b := a + |r|;
    assert r == s[a..b] by {
      assert t == s[a..];
      assert r == t[..|r|];
    }
    assert forall i :: b <= i < |s| ==> IsSpace(s[i]) by {
      forall i | b <= i < |s| ensures IsSpace(s[i]) {
        assert s[i] == t[i - a];
      }
    }
    if r == [] {
      assert t == [];
    } else {
      assert r[0] == s[a];
    }
  }

  function DigitChar(d: nat): (c: char)
    requires d < 10
    ensures IsDigit(c)
  {
    ('0' as int + d) as char
  }

  /** The decimal numeral of `n`, as a template literal prints a number. */
  function Decimal(n: nat): (r: string)
    ensures r != [] && AllDigits(r)
  {
    if n < 10 then [DigitChar(n)] else Decimal(n / 10) + [DigitChar(n % 10)]
  }

  /** The number a string of decimal digits denotes. */
  function DecimalValue(s: string): nat
    requires AllDigits(s)
  {
    if s == [] then 0
    else DecimalValue(s[..|s| - 1]) * 10 + (s[|s| - 1] as int - '0' as int)
  }

  /** Printing a number and reading the digits back gives the number again,
      so distinct timestamps give distinct numerals. */
  lemma {:induction false} DecimalRoundTrip(n: nat)
    ensures DecimalValue(Decimal(n)) == n
  {
    if n >= 10 {
      var s := Decimal(n);
      assert s[..|s| - 1] == Decimal(n / 10);
      DecimalRoundTrip(n / 10);
    }
  }

  lemma DecimalInjective(m: nat, n: nat)
    ensures Decimal(m) == Decimal(n) ==> m == n
  {
    DecimalRoundTrip(m);
    DecimalRoundTrip(n);
  }

  /** `s.split(c)[0]`: the text before the first `c`, or all of `s`. */
  function BeforeFirst(s: string, c: char): (r: string)
    ensures |r| <= |s|
  {
    if s == [] || s[0] == c then [] else [s[0]] + BeforeFirst(s[1..], c)
  }

  /** `BeforeFirst` gives a prefix free of `c`, followed in `s` by a `c`
      unless it is all of `s`. */
  lemma {:induction false} BeforeFirstSpec(s: string, c: char)
    ensures var r := BeforeFirst(s, c);
            && r == s[..|r|]
            && c !in r
            && (|r| < |s| ==> s[|r|] == c)
  {
    if s != [] && s[0] != c {
      BeforeFirstSpec(s[1..], c);
    }
  }

  /** `s.split(c).pop()`: the text after the last `c`, or all of `s`. */
  function AfterLast(s: string, c: char): (r: string)
    ensures |r| <= |s|
  {
    if s == [] || s[|s| - 1] == c then [] else AfterLast(s[..|s| - 1], c) + [s[|s| - 1]]
  }

  /** `AfterLast` gives a suffix free of `c`, preceded in `s` by a `c` unless
      it is all of `s`. */
  lemma {:induction false} AfterLastSpec(s: string, c: char)
    ensures var r := AfterLast(s, c);
            && r == s[|s| - |r|..]
            && c !in r
            && (|r| < |s| ==> s[|s| - |r| - 1] == c)
  {
    if s != [] && s[|s| - 1] != c {
      var t := s[..|s| - 1];
      AfterLastSpec(t, c);
      var r := AfterLast(s, c);
      assert r == AfterLast(t, c) + [s[|s| - 1]];
      assert t[|t| - |AfterLast(t, c)|..] + [s[|s| - 1]] == s[|s| - |r|..];
    }
  }

  /** The text before the first separator of a joined pair is the first part. */
  lemma {:induction false} BeforeFirstJoin(u: string, c: char, t: string)
    requires c !in u
    ensures BeforeFirst(u + [c] + t, c) == u
  {
    if u == [] {
      assert (u + [c] + t)[0] == c;
    } else {
      assert (u + [c] + t)[1..] == u[1..] + [c] + t;
      BeforeFirstJoin(u[1..], c, t);
    }
  }

  /** The text after the last separator of a joined pair is the second part. */
  lemma {:induction false} AfterLastJoin(u: string, c: char, t: string)
    requires c !in t
    ensures AfterLast(u + [c] + t, c) == t
  {
    var s := u + [c] + t;
    if t != [] {
      assert s[..|s| - 1] == u + [c] + t[..|t| - 1];
      AfterLastJoin(u, c, t[..|t| - 1]);
      assert t == t[..|t| - 1] + [t[|t| - 1]];
    }
  }

  // --- lengths and slices as JavaScript counts them

  /** How many UTF-16 code units a character takes: two for a character
      outside the Basic Multilingual Plane (a surrogate pair), one otherwise. */
  function Utf16Units(c: char): nat
  {
    if c as int > 0xFFFF then 2 else 1
  }

  /** `s.length`: the number of UTF-16 code units of `s`. */
  function Utf16Length(s: string): nat
  {
    if s == [] then 0 else Utf16Units(s[0]) + Utf16Length(s[1..])
  }

  /** Every character of `s` lies in the Basic Multilingual Plane. */
  predicate InBmp(s: string)
  {
    forall i :: 0 <= i < |s| ==> s[i] as int <= 0xFFFF
  }

  /** A string takes between one and two code units per character, and
      exactly one each when it has no character outside the BMP. */
  lemma {:induction false} Utf16LengthBounds(s: string)
    ensures |s| <= Utf16Length(s) <= 2 * |s|
    ensures InBmp(s) <==> Utf16Length(s) == |s|
  {
    if s != [] {
      Utf16LengthBounds(s[1..]);
      assert InBmp(s) <==> s[0] as int <= 0xFFFF && InBmp(s[1..]) by {
        assert forall i :: 1 <= i < |s| ==> s[i] == s[1..][i - 1];
      }
    }
  }

  lemma {:induction false} Utf16LengthAppend(a: string, b: string)
    ensures Utf16Length(a + b) == Utf16Length(a) + Utf16Length(b)
  {
    if a != [] {
      assert (a + b)[1..] == a[1..] + b;
      Utf16LengthAppend(a[1..], b);
    } else {
      assert a + b == b;
    }
  }

  /** `k` copies of one character take `k` times its code units. */
  lemma {:induction false} Utf16LengthRepeat(c: char, k: nat)
    ensures Utf16Length(seq(k, _ => c)) == k * Utf16Units(c)
  {
    if k > 0 {
      var s := seq(k, _ => c);
      assert s[1..] == seq(k - 1, _ => c);
      Utf16LengthRepeat(c, k - 1);
    }
  }

  /** The characters `s.slice(0, n)` keeps: the longest prefix of `s` whose
      code units fit in `n`. */
  function Utf16Prefix(s: string, n: nat): (r: string)
    ensures |r| <= |s|
  {
    if s == [] || Utf16Units(s[0]) > n then []
    else [s[0]] + Utf16Prefix(s[1..], n - Utf16Units(s[0]))
  }

  /** The kept prefix fits in `n` code units and the next character would
      not; a text that fits is kept whole; in a text without characters
      outside the BMP the first `n` characters are kept. */
  lemma {:induction false} Utf16PrefixSpec(s: string, n: nat)
    ensures var r := Utf16Prefix(s, n);
            && r == s[..|r|]
            && Utf16Length(r) <= n
            && (|r| < |s| ==> Utf16Length(r) + Utf16Units(s[|r|]) > n)
            && (Utf16Length(s) <= n ==> r == s)
            && (InBmp(s) ==> |r| == if |s| < n then |s| else n)
  {
    var r := Utf16Prefix(s, n);
    if s != [] {
      var u := Utf16Units(s[0]);
      assert InBmp(s) ==> InBmp(s[1..]) && u == 1 by {
        assert forall i :: 1 <= i < |s| ==> s[i] == s[1..][i - 1];
      }
      if u <= n {
        var t := Utf16Prefix(s[1..], n - u);
        Utf16PrefixSpec(s[1..], n - u);
        assert r == [s[0]] + t;
        assert r[1..] == t;
        assert s[..|r|] == [s[0]] + s[1..][..|t|];
        assert |t| < |s| - 1 ==> s[|r|] == s[1..][|t|];
      }
    }
  }

  /** `s.slice(0, n) + '...'`. */
  function Excerpt(s: string, n: nat): (r: string)
    ensures |r| >= 3 && r[|r| - 3..] == "..."
  {
    Utf16Prefix(s, n) + "..."
  }

  /** The excerpt is the text's longest prefix that fits in `n` code units,
      followed by "..."; a text that fits is kept whole, and in a text
      without characters outside the BMP the first `n` characters are kept. */
  lemma ExcerptSpec(s: string, n: nat)
    ensures var r := Excerpt(s, n);
            var k := |r| - 3;
            && k <= |s| && r[..k] == s[..k]
            && Utf16Length(r[..k]) <= n
            && (k < |s| ==> Utf16Length(r[..k]) + Utf16Units(s[k]) > n)
            && (Utf16Length(s) <= n ==> r == s + "...")
            && (InBmp(s) ==> k == if |s| < n then |s| else n)
  {
    Utf16PrefixSpec(s, n);
    var r := Excerpt(s, n);
    assert r[..|r| - 3] == Utf16Prefix(s, n);
  }
}
