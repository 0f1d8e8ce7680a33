/**
 * The string operations the application relies on, on ASCII text: JavaScript's `toLowerCase`,
 * the `\s` character class, `String.prototype.includes`/`startsWith`/`split`, `String(n)`,
 * `padStart` and `parseInt`.
 */
module Text {
  import opened Wrappers

  /** JavaScript's `\s` restricted to ASCII: space, tab, line feed, vertical tab, form feed, carriage return. */
  predicate IsSpace(c: char) {
    c == ' ' || c == '\t' || c == '\n' || c == '\r' || c as int == 11 || c as int == 12
  }

  predicate IsUpper(c: char) { 'A' <= c <= 'Z' }

  predicate HasNoSpace(s: string) { forall i :: 0 <= i < |s| ==> !IsSpace(s[i]) }

  /** Text that matches `^[\s\t\r\n]*$`: empty, or whitespace only. */
  predicate Blank(s: string) { forall i :: 0 <= i < |s| ==> IsSpace(s[i]) }

  predicate HasNoUpper(s: string) { forall i :: 0 <= i < |s| ==> !IsUpper(s[i]) }

  /** `toLowerCase` on one ASCII character. */
  function LowerChar(c: char): (r: char)
    ensures !IsUpper(r)
    ensures IsSpace(r) <==> IsSpace(c)
    ensures !IsUpper(c) ==> r == c
  {
    if IsUpper(c) then (c as int + 32) as char else c
  }

  /** `toLowerCase` on ASCII text. */
  function Lower(s: string): (r: string)
    ensures |r| == |s|
    ensures forall i :: 0 <= i < |s| ==> r[i] == LowerChar(s[i])
  {
    seq(|s|, i requires 0 <= i < |s| => LowerChar(s[i]))
  }

  lemma LowerHasNoUpper(s: string)
    ensures HasNoUpper(Lower(s))
  {
  }

  lemma LowerIdempotent(s: string)
    ensures Lower(Lower(s)) == Lower(s)
  {
  }

  lemma LowerAppend(a: string, b: string)
    ensures Lower(a + b) == Lower(a) + Lower(b)
  {
  }

  lemma NoSpaceAppend(a: string, b: string)
    requires HasNoSpace(a) && HasNoSpace(b)
    ensures HasNoSpace(a + b)
  {
    forall i | 0 <= i < |a + b| ensures !IsSpace((a + b)[i]) {
      if i >= |a| { assert (a + b)[i] == b[i - |a|]; }
    }
  }

  lemma NoUpperAppend(a: string, b: string)
    requires HasNoUpper(a) && HasNoUpper(b)
    ensures HasNoUpper(a + b)
  {
    forall i | 0 <= i < |a + b| ensures !IsUpper((a + b)[i]) {
      if i >= |a| { assert (a + b)[i] == b[i - |a|]; }
    }
  }

  lemma DigitsAppend(a: string, b: string)
    requires AllDigits(a) && AllDigits(b)
    ensures AllDigits(a + b)
  {
    forall i | 0 <= i < |a + b| ensures IsDigit((a + b)[i]) {
      if i >= |a| { assert (a + b)[i] == b[i - |a|]; }
    }
  }

  lemma LowerKeepsNoSpace(s: string)
    requires HasNoSpace(s)
    ensures HasNoSpace(Lower(s))
  {
  }

  /** `s.replace(/\s+/g, '')`: every run of whitespace is removed, everything else is kept in order. */
  function StripSpace(s: string): (r: string)
    ensures |r| <= |s|
    ensures HasNoSpace(r)
  {
    if |s| == 0 then []
    else (if IsSpace(s[0]) then [] else [s[0]]) + StripSpace(s[1..])
  }

  /** Removing whitespace distributes over concatenation. */
  lemma {:induction false} StripSpaceAppend(a: string, b: string)
    ensures StripSpace(a + b) == StripSpace(a) + StripSpace(b)
    decreases |a|
  {
    if |a| == 0 {
      assert a + b == b;
    } else {
      assert (a + b)[1..] == a[1..] + b;
      StripSpaceAppend(a[1..], b);
    }
  }

  /** Text without whitespace is left exactly as it is. */
  lemma {:induction false} StripSpaceNoSpace(s: string)
    requires HasNoSpace(s)
    ensures StripSpace(s) == s
    decreases |s|
  {
    if |s| > 0 {
      StripSpaceNoSpace(s[1..]);
    }
  }

  /** `s.includes(sub)`; also SQL `LIKE '%sub%'` once both sides are lower-cased. */
  predicate Contains(s: string, sub: string) {
    exists i :: 0 <= i <= |s| - |sub| && OccursAt(s, sub, i)
  }

  /** `sub` occurs in `s` starting at index `i`. */
  predicate OccursAt(s: string, sub: string, i: int) {
    0 <= i <= |s| - |sub| && s[i..i + |sub|] == sub
  }

  lemma ContainsEmpty(s: string)
    ensures Contains(s, "")
  {
    assert OccursAt(s, "", 0);
  }

  lemma ContainsSelf(s: string)
    ensures Contains(s, s)
  {
    assert OccursAt(s, s, 0);
  }

  /** `s.startsWith(p)`. */
  predicate StartsWith(s: string, p: string) {
    |p| <= |s| && s[..|p|] == p
  }

  /**
   * `s.split(sep)` for a one-character separator: the maximal pieces between separators,
   * including empty pieces at either end, so there is always at least one piece.
   */
  function Split(s: string, sep: char): (r: seq<string>)
    ensures |r| >= 1
    ensures forall k :: 0 <= k < |r| ==> sep !in r[k]
    decreases |s|
  {
    if |s| == 0 then [""]
    else if s[0] == sep then [""] + Split(s[1..], sep)
    else
      var rest := Split(s[1..], sep);
      [[s[0]] + rest[0]] + rest[1..]
  }

  /** Text without the separator splits into itself alone. */
  lemma {:induction false} SplitNoSep(s: string, sep: char)
    requires sep !in s
    ensures Split(s, sep) == [s]
    decreases |s|
  {
    if |s| > 0 {
      assert s[0] != sep;
      assert sep !in s[1..];
      SplitNoSep(s[1..], sep);
      assert [s[0]] + s[1..] == s;
    }
  }

  /** A separator-free first piece is split off exactly. */
  lemma {:induction false} SplitAfter(p: string, t: string, sep: char)
    requires sep !in p
    ensures Split(p + [sep] + t, sep) == [p] + Split(t, sep)
    decreases |p|
  {
    var s := p + [sep] + t;
    if |p| == 0 {
      assert s == [sep] + t;
      assert s[1..] == t;
    } else {
      assert s[0] == p[0] && p[0] != sep;
      assert s[1..] == p[1..] + [sep] + t;
      assert sep !in p[1..];
      SplitAfter(p[1..], t, sep);
      assert [p[0]] + p[1..] == p;
    }
  }

  // ---------------------------------------------------------------------------
  // SQL LIKE
  // ---------------------------------------------------------------------------

  /**
   * SQLite's `s LIKE pattern` without an ESCAPE clause: `%` matches any run of characters, `_`
   * any one character, and every other character matches itself up to ASCII case.
   */
  predicate Like(s: string, pattern: string)
    decreases |s| + |pattern|
  {
    if |pattern| == 0 then |s| == 0
    else if pattern[0] == '%' then Like(s, pattern[1..]) || (|s| > 0 && Like(s[1..], pattern))
    else |s| > 0 && (pattern[0] == '_' || LowerChar(pattern[0]) == LowerChar(s[0])) && Like(s[1..], pattern[1..])
  }

  /** Text in which LIKE sees no wildcard. */
  predicate NoWildcards(s: string) { '%' !in s && '_' !in s }

  /** `%` alone matches every text. */
  lemma {:induction false} LikeAnyRun(s: string)
    ensures Like(s, "%")
    decreases |s|
  {
    if |s| > 0 {
      LikeAnyRun(s[1..]);
    }
  }

  /** A text matches the pattern made of itself followed by `%`, whatever wildcards it holds. */
  lemma {:induction false} LikeSelfPrefix(s: string)
    ensures Like(s, s + "%")
    decreases |s|
  {
    if |s| == 0 {
      assert s + "%" == "%";
      LikeAnyRun(s);
    } else {
      var pat := s + "%";
      assert pat[1..] == s[1..] + "%";
      LikeSelfPrefix(s[1..]);
      if s[0] == '%' {
        assert Like(s[1..], pat[1..]);
        assert Like(s[1..], pat);
      }
    }
  }

  /** Without wildcards, `f%` is the case-insensitive `startsWith(f)`. */
  lemma {:induction false} LikePrefix(t: string, f: string)
    requires NoWildcards(f)
    ensures Like(t, f + "%") <==> StartsWith(Lower(t), Lower(f))
    decreases |f|
  {
    if |f| == 0 {
      assert f + "%" == "%";
      LikeAnyRun(t);
    } else {
      var pat := f + "%";
      assert pat[0] == f[0] && pat[1..] == f[1..] + "%";
      assert NoWildcards(f[1..]) by { assert forall c :: c in f[1..] ==> c in f; }
      if |t| > 0 {
        LikePrefix(t[1..], f[1..]);
        assert Lower(t) == [LowerChar(t[0])] + Lower(t[1..]);
        assert Lower(f) == [LowerChar(f[0])] + Lower(f[1..]);
      }
    }
  }

  /** A leading `%` tries the rest of the pattern at every suffix. */
  lemma {:induction false} LikeSkip(s: string, g: string)
    ensures Like(s, "%" + g) <==> exists i :: 0 <= i <= |s| && Like(s[i..], g)
    decreases |s|
  {
    var pat := "%" + g;
    assert pat[1..] == g;
    assert s[0..] == s;
    if |s| > 0 {
      LikeSkip(s[1..], g);
      if exists i :: 0 <= i <= |s| && Like(s[i..], g) {
        var i :| 0 <= i <= |s| && Like(s[i..], g);
        if i > 0 {
          assert s[1..][i - 1..] == s[i..];
        }
      }
      if exists i :: 0 <= i <= |s[1..]| && Like(s[1..][i..], g) {
        var i :| 0 <= i <= |s[1..]| && Like(s[1..][i..], g);
        assert s[1..][i..] == s[i + 1..];
      }
    }
  }

  /** Without wildcards, `f%` matches the suffix from `i` exactly when `f` occurs at `i` up to case. */
  lemma LikeAt(s: string, f: string, i: nat)
    requires NoWildcards(f) && i <= |s|
    ensures Like(s[i..], f + "%") <==> OccursAt(Lower(s), Lower(f), i)
  {
    LikePrefix(s[i..], f);
    if i + |f| <= |s| {
      assert Lower(s[i..])[..|f|] == Lower(s)[i..i + |f|];
    }
  }

  /**
   * Without wildcards in `f`, the pattern `%f%` is the case-insensitive substring test, which is
   * what the `LIKE '%${f}%'` filter is meant to be.
   */
  lemma LikeContains(s: string, f: string)
    requires NoWildcards(f)
    ensures Like(s, "%" + f + "%") <==> Contains(Lower(s), Lower(f))
  {
    assert "%" + f + "%" == "%" + (f + "%");
    LikeSkip(s, f + "%");
    if Contains(Lower(s), Lower(f)) {
      var i :| 0 <= i <= |Lower(s)| - |Lower(f)| && OccursAt(Lower(s), Lower(f), i);
      LikeAt(s, f, i);
    }
    if exists i :: 0 <= i <= |s| && Like(s[i..], f + "%") {
      var i :| 0 <= i <= |s| && Like(s[i..], f + "%");
      LikeAt(s, f, i);
    }
  }

  // ---------------------------------------------------------------------------
  // Decimal rendering and JavaScript's parseInt
  // ---------------------------------------------------------------------------

  predicate IsDigit(c: char) { '0' <= c <= '9' }

  predicate AllDigits(s: string) { forall i :: 0 <= i < |s| ==> IsDigit(s[i]) }

  function DigitChar(d: nat): (c: char)
    requires d < 10
    ensures IsDigit(c)
  {
    ('0' as int + d) as char
  }

  /** `String(n)` for a non-negative integer: its decimal digits without leading zeros. */
  function NatToString(n: nat): (r: string)
    ensures |r| >= 1 && AllDigits(r)
    ensures (n < 10) == (|r| == 1)
    decreases n
  {
    if n < 10 then [DigitChar(n)] else NatToString(n / 10) + [DigitChar(n % 10)]
  }

  /** `String(n)` for any integer. */
  function IntToString(n: int): string {
    if n < 0 then "-" + NatToString(-n) else NatToString(n)
  }

  /** `String(n).padStart(width, c)`: left-pads with `c` up to `width` characters. */
  function PadStart(s: string, width: nat, c: char): (r: string)
    ensures |r| == if |s| >= width then |s| else width
    ensures r[|r| - |s|..] == s
    ensures forall i :: 0 <= i < |r| - |s| ==> r[i] == c
  {
    if |s| >= width then s else seq(width - |s|, _ => c) + s
  }

  /** Value of an ASCII digit in base 16 (and base 10 for '0'..'9'); 16 for anything else. */
  function DigitValue(c: char): nat {
    if '0' <= c <= '9' then c as int - '0' as int
    else if 'a' <= c <= 'f' then c as int - 'a' as int + 10
    else if 'A' <= c <= 'F' then c as int - 'A' as int + 10
    else 16
  }

  /** The number written by `s` in base `radix`, most significant digit first. */
  function ValueOf(s: string, radix: nat): nat
    decreases |s|
  {
    if |s| == 0 then 0
    else ValueOf(s[..|s| - 1], radix) * radix + DigitValue(s[|s| - 1])
  }

  /** Length of the longest prefix of `s` made of base-`radix` digits. */
  function DigitPrefix(s: string, radix: nat): (n: nat)
    ensures n <= |s|
    ensures forall i :: 0 <= i < n ==> DigitValue(s[i]) < radix
    ensures n < |s| ==> DigitValue(s[n]) >= radix
    decreases |s|
  {
    if |s| == 0 || DigitValue(s[0]) >= radix then 0 else 1 + DigitPrefix(s[1..], radix)
  }

  function TrimStart(s: string): (r: string)
    ensures |r| == 0 || !IsSpace(r[0])
    ensures |r| <= |s| && r == s[|s| - |r|..]
    decreases |s|
  {
    if |s| > 0 && IsSpace(s[0]) then TrimStart(s[1..]) else s
  }

  /**
   * `parseInt(s)` with no radix argument (ECMAScript section 19.2.5): leading whitespace is skipped,
   * one sign is accepted, a `0x`/`0X` prefix selects base 16, and the longest digit prefix is read.
   * `None` stands for `NaN` (no digit at all).
   */
  function ParseInt(s: string): Option<int> {
    var t := TrimStart(s);
    if |t| > 0 && t[0] == '-' then
      match ParseUnsigned(t[1..])
      case Some(m) => Some(0 - m as int)
      case None => None
    else if |t| > 0 && t[0] == '+' then ParseUnsigned(t[1..])
    else ParseUnsigned(t)
  }

  /** The unsigned part of `parseInt`: an optional `0x` prefix, then the longest digit prefix. */
  function ParseUnsigned(u: string): Option<nat> {
    if |u| >= 2 && u[0] == '0' && (u[1] == 'x' || u[1] == 'X') then ReadDigits(u[2..], 16)
    else ReadDigits(u, 10)
  }

  function ReadDigits(v: string, radix: nat): Option<nat> {
    var n := DigitPrefix(v, radix);
    if n == 0 then None else Some(ValueOf(v[..n], radix))
  }

  lemma {:induction false} DigitPrefixAllDigits(s: string)
    requires AllDigits(s)
    ensures DigitPrefix(s, 10) == |s|
    decreases |s|
  {
    if |s| > 0 {
      DigitPrefixAllDigits(s[1..]);
    }
  }

  lemma {:induction false} ValueOfNatToString(n: nat)
    ensures ValueOf(NatToString(n), 10) == n
    decreases n
  {
    if n >= 10 {
      var s := NatToString(n);
      assert s[..|s| - 1] == NatToString(n / 10);
      ValueOfNatToString(n / 10);
    }
  }

  /** `parseInt(String(n)) === n` for every integer `n`. */
  lemma ParseIntOfIntToString(n: int)
    ensures ParseInt(IntToString(n)) == Some(n)
  {
    var m: nat := if n < 0 then -n else n;
    var d := NatToString(m);
    ParseUnsignedDigits(m);
    if n < 0 {
      var s := "-" + d;
      assert s[1..] == d;
      assert TrimStart(s) == s;
    } else {
      assert TrimStart(d) == d;
    }
  }

  /** Reading the decimal rendering of `m` yields `m`; it never looks like a hexadecimal prefix. */
  lemma ParseUnsignedDigits(m: nat)
    ensures var d := NatToString(m); !IsSpace(d[0]) && d[0] != '-' && d[0] != '+'
    ensures ParseUnsigned(NatToString(m)) == Some(m)
  {
    var d := NatToString(m);
    DigitPrefixAllDigits(d);
    ValueOfNatToString(m);
    assert d[..|d|] == d;
    assert !IsDigit('x') && !IsDigit('X');
  }

  /** `parseInt('')` and `parseInt` of blank text are `NaN`. */
  lemma ParseIntBlank(s: string)
    requires Blank(s)
    ensures ParseInt(s).None?
  {
    TrimAllSpace(s);
  }

  lemma {:induction false} TrimAllSpace(s: string)
    requires Blank(s)
    ensures TrimStart(s) == ""
    decreases |s|
  {
    if |s| > 0 {
      TrimAllSpace(s[1..]);
    }
  }
}
