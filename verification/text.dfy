/**
 * Character and string helpers used by the handlers: ASCII case mapping,
 * JavaScript's `trim`, `split` / `join` on one separator, word splitting,
 * decimal rendering and parsing, and `padStart`.
 * Non-ASCII case mapping and non-ASCII whitespace are not modelled.
 */
module Text {
  import opened Wrappers

  predicate IsUpper(c: char) { 'A' <= c <= 'Z' }
  predicate IsLower(c: char) { 'a' <= c <= 'z' }
  predicate IsDigit(c: char) { '0' <= c <= '9' }
  predicate IsAlnum(c: char) { IsUpper(c) || IsLower(c) || IsDigit(c) }

  /** The ASCII characters JavaScript's `\s` and `trim` treat as white space. */
  predicate IsSpace(c: char)
  {
    c == ' ' || c == '\t' || c == '\n' || c == '\r' || c as int == 11 || c as int == 12
  }

  function LowerChar(c: char): (r: char)
    ensures IsUpper(c) ==> IsLower(r) && r as int == c as int + 32
    ensures !IsUpper(c) ==> r == c
  {
    if IsUpper(c) then (c as int + 32) as char else c
  }

  function UpperChar(c: char): (r: char)
    ensures IsLower(c) ==> IsUpper(r) && r as int + 32 == c as int
    ensures !IsLower(c) ==> r == c
  {
    if IsLower(c) then (c as int - 32) as char else c
  }

  /** `String.prototype.toLowerCase` on ASCII letters. */
  function Lower(s: string): (r: string)
    ensures |r| == |s|
    ensures forall i :: 0 <= i < |s| ==> r[i] == LowerChar(s[i])
  {
    seq(|s|, i requires 0 <= i < |s| => LowerChar(s[i]))
  }

  predicate NoUpper(s: string) { forall i :: 0 <= i < |s| ==> !IsUpper(s[i]) }

  lemma LowerHasNoUpper(s: string)
    ensures NoUpper(Lower(s))
  {
  }

  lemma LowerIdempotent(s: string)
    ensures Lower(Lower(s)) == Lower(s)
  {
  }

  lemma LowerFixesNoUpper(s: string)
    requires NoUpper(s)
    ensures Lower(s) == s
  {
  }

  predicate AllSpace(s: string) { forall i :: 0 <= i < |s| ==> IsSpace(s[i]) }

  function TrimStart(s: string): (r: string)
    ensures |r| <= |s| && r == s[|s| - |r|..]
    ensures AllSpace(s[..|s| - |r|])
    ensures r != [] ==> !IsSpace(r[0])
  {
    if s != [] && IsSpace(s[0]) then TrimStart(s[1..]) else s
  }

  function TrimEnd(s: string): (r: string)
    ensures |r| <= |s| && r == s[..|r|]
    ensures AllSpace(s[|r|..])
    ensures r != [] ==> !IsSpace(r[|r| - 1])
  {
    if s != [] && IsSpace(s[|s| - 1]) then TrimEnd(s[..|s| - 1]) else s
  }

  /** `String.prototype.trim`: `s` without its leading and trailing white space. */
  function Trim(s: string): (r: string)
    ensures |r| <= |s|
    ensures r != [] ==> !IsSpace(r[0]) && !IsSpace(r[|r| - 1])
  {
    TrimEnd(TrimStart(s))
  }

  lemma TrimIdempotent(s: string)
    ensures Trim(Trim(s)) == Trim(s)
  {
    var r := Trim(s);
    if r != [] {
      assert TrimStart(r) == r;
      assert TrimEnd(r) == r;
    }
  }

  /** A string that neither starts nor ends with white space is its own trim. */
  lemma TrimFixesUnpadded(s: string)
    requires s != [] ==> !IsSpace(s[0]) && !IsSpace(s[|s| - 1])
    ensures Trim(s) == s
  {
    if s != [] {
      assert TrimStart(s) == s;
      assert TrimEnd(s) == s;
    }
  }

  /** Lower-casing a trimmed text leaves it trimmed. */
  lemma TrimLowerTrimmed(s: string)
    ensures Trim(Lower(Trim(s))) == Lower(Trim(s))
  {
    var t := Lower(Trim(s));
    if t != [] {
      assert t[0] == LowerChar(Trim(s)[0]) && t[|t| - 1] == LowerChar(Trim(s)[|t| - 1]);
    }
    TrimFixesUnpadded(t);
  }

  /** A string is blank when trimming leaves nothing. */
  predicate IsBlank(s: string) { Trim(s) == [] }

  lemma {:induction false} TrimStartEmptyIff(s: string)
    ensures TrimStart(s) == [] <==> AllSpace(s)
  {
    if s != [] && IsSpace(s[0]) {
      TrimStartEmptyIff(s[1..]);
      assert AllSpace(s[1..]) <==> AllSpace(s) by {
        assert forall i :: 0 <= i < |s| - 1 ==> s[1..][i] == s[i + 1];
      }
    }
  }

  lemma {:induction false} TrimEndKeepsNonSpace(a: string, j: nat)
    requires j < |a| && !IsSpace(a[j])
    ensures TrimEnd(a) != []
  {
    if IsSpace(a[|a| - 1]) {
      TrimEndKeepsNonSpace(a[..|a| - 1], j);
    }
  }

  /** Blank means made only of white space (JavaScript's `!s.trim()`). */
  lemma BlankIffAllSpace(s: string)
    ensures IsBlank(s) <==> AllSpace(s)
  {
    TrimStartEmptyIff(s);
    var a := TrimStart(s);
    if a != [] {
      TrimEndKeepsNonSpace(a, 0);
    }
  }

  predicate NoSpace(s: string) { forall i :: 0 <= i < |s| ==> !IsSpace(s[i]) }

  /**
   * `/^\S+@\S+\.\S+$/`: no white space anywhere, and an `@` and a later `.`
   * with at least one character before, between and after them.
   */
  predicate EmailShaped(s: string)
  {
    NoSpace(s) && exists i, j :: 0 < i && i + 1 < j && j + 1 < |s| && s[i] == '@' && s[j] == '.'
  }

  /** `s.includes(c)` for one character. */
  predicate Has(s: string, c: char) { exists i :: 0 <= i < |s| && s[i] == c }

  /** `hay.includes(needle)`. */
  predicate IsSubstring(needle: string, hay: string)
  {
    exists i | 0 <= i <= |hay| - |needle| :: OccursAt(needle, hay, i)
  }

  predicate OccursAt(needle: string, hay: string, i: int)
  {
    0 <= i <= |hay| - |needle| && hay[i..i + |needle|] == needle
  }

  /** `String.prototype.split(sep)` with a one-character separator: never empty. */
  function Split(s: string, sep: char): (parts: seq<string>)
    ensures |parts| >= 1
  {
    if s == [] then [[]]
    else
      var init := Split(s[..|s| - 1], sep);
      var c := s[|s| - 1];
      if c == sep then init + [[]]
      else init[..|init| - 1] + [init[|init| - 1] + [c]]
  }

  /** No part of a split contains the separator. */
  lemma {:induction false} SplitLacksSep(s: string, sep: char)
    ensures forall j :: 0 <= j < |Split(s, sep)| ==> !Has(Split(s, sep)[j], sep)
  {
    if s != [] {
      var p := s[..|s| - 1];
      var c := s[|s| - 1];
      SplitLacksSep(p, sep);
      assert s == p + [c];
      SplitSnoc(p, c, sep);
      var init := Split(p, sep);
      if c != sep {
        var last := init[|init| - 1] + [c];
        assert !Has(last, sep) by {
          assert forall i :: 0 <= i < |last| - 1 ==> last[i] == init[|init| - 1][i];
        }
      }
    }
  }

  /** `Array.prototype.join(sep)`. */
  function Join(parts: seq<string>, sep: char): string
  {
    if parts == [] then []
    else if |parts| == 1 then parts[0]
    else Join(parts[..|parts| - 1], sep) + [sep] + parts[|parts| - 1]
  }

  lemma JoinSnoc(parts: seq<string>, x: string, sep: char)
    requires parts != []
    ensures Join(parts + [x], sep) == Join(parts, sep) + [sep] + x
  {
    assert (parts + [x])[..|parts|] == parts;
  }

  lemma AppendAssoc(x: string, y: string, z: string)
    ensures x + (y + z) == x + y + z
  {
  }

  /** One more character either opens a new part (the separator) or extends the last one. */
  lemma SplitSnoc(p: string, c: char, sep: char)
    ensures var init := Split(p, sep);
            Split(p + [c], sep) == if c == sep then init + [[]] else init[..|init| - 1] + [init[|init| - 1] + [c]]
  {
    assert (p + [c])[..|p|] == p;
  }

  /** Joining the parts of a split gives back the original string. */
  lemma {:induction false} JoinSplit(s: string, sep: char)
    ensures Join(Split(s, sep), sep) == s
  {
    if s != [] {
      var p := s[..|s| - 1];
      var c := s[|s| - 1];
      var init := Split(p, sep);
      JoinSplit(p, sep);
      assert s == p + [c];
      SplitSnoc(p, c, sep);
      if c == sep {
        JoinSnoc(init, [], sep);
      } else {
        JoinExtendLast(init, c, sep);
      }
    }
  }

  /** Extending the last part extends the joined string by the same character. */
  lemma JoinExtendLast(parts: seq<string>, c: char, sep: char)
    requires parts != []
    ensures Join(parts[..|parts| - 1] + [parts[|parts| - 1] + [c]], sep) == Join(parts, sep) + [c]
  {
    var front := parts[..|parts| - 1];
    var last := parts[|parts| - 1] + [c];
    if front == [] {
      assert parts == [parts[0]];
    } else {
      assert parts == front + [parts[|parts| - 1]];
      JoinSnoc(front, last, sep);
      JoinSnoc(front, parts[|parts| - 1], sep);
    }
  }

  /** Splitting at a separator that the tail does not contain adds exactly one last part. */
  lemma {:induction false} SplitLastSegment(p: string, t: string, sep: char)
    requires !Has(t, sep)
    ensures Split(p + [sep] + t, sep) == Split(p, sep) + [t]
    decreases |t|
  {
    if t == [] {
      SplitSnoc(p, sep, sep);
      assert p + [sep] + t == p + [sep];
    } else {
      var t' := t[..|t| - 1];
      var x := t[|t| - 1];
      assert !Has(t', sep) by {
        forall i | 0 <= i < |t'| ensures t'[i] != sep { assert t'[i] == t[i]; }
      }
      SplitLastSegment(p, t', sep);
      var q := p + [sep] + t';
      assert p + [sep] + t == q + [x];
      SplitSnoc(q, x, sep);
      var init := Split(p, sep) + [t'];
      assert init[..|init| - 1] == Split(p, sep);
      assert t' + [x] == t;
    }
  }

  /** A string without the separator splits into itself alone. */
  lemma {:induction false} SplitNoSep(s: string, sep: char)
    requires !Has(s, sep)
    ensures Split(s, sep) == [s]
  {
    if s != [] {
      var p := s[..|s| - 1];
      assert !Has(p, sep) by {
        forall i | 0 <= i < |p| ensures p[i] != sep { assert p[i] == s[i]; }
      }
      SplitNoSep(p, sep);
      assert p + [s[|s| - 1]] == s;
      SplitSnoc(p, s[|s| - 1], sep);
    }
  }

  /** Splitting at the first separator: the part before it, then the parts of the rest. */
  lemma {:induction false} SplitCons(a: string, b: string, sep: char)
    requires !Has(a, sep)
    ensures Split(a + [sep] + b, sep) == [a] + Split(b, sep)
    decreases |b|
  {
    if b == [] {
      SplitNoSep(a, sep);
      SplitSnoc(a, sep, sep);
      assert a + [sep] + b == a + [sep];
      assert Split(b, sep) == [[]];
    } else {
      var b' := b[..|b| - 1];
      SplitCons(a, b', sep);
      assert b == b' + [b[|b| - 1]];
      SplitConsStep(a, b', b[|b| - 1], sep);
    }
  }

  /** One more character after the separator: the step of `SplitCons`. */
  lemma SplitConsStep(a: string, b: string, c: char, sep: char)
    requires Split(a + [sep] + b, sep) == [a] + Split(b, sep)
    ensures Split(a + [sep] + (b + [c]), sep) == [a] + Split(b + [c], sep)
  {
    AppendAssoc(a + [sep], b, [c]);
    assert a + [sep] + (b + [c]) == (a + [sep] + b) + [c];
    SplitSnoc(a + [sep] + b, c, sep);
    SplitSnoc(b, c, sep);
    if c == sep {
      SnocCons(a, Split(b, sep), []);
    } else {
      SplitPartStep(a, Split(b, sep), c);
    }
  }

  lemma SplitPartStep(a: string, tail: seq<string>, c: char)
    requires |tail| >= 1
    ensures var t := [a] + tail;
            t[..|t| - 1] + [t[|t| - 1] + [c]] == [a] + (tail[..|tail| - 1] + [tail[|tail| - 1] + [c]])
  {
    ReplaceLastCons(a, tail, tail[|tail| - 1] + [c]);
  }

  lemma SnocCons<T>(h: T, t: seq<T>, x: T)
    ensures [h] + t + [x] == [h] + (t + [x])
  {
  }

  /** Replacing the last element commutes with a leading element. */
  lemma ReplaceLastCons<T>(h: T, t: seq<T>, x: T)
    requires t != []
    ensures var s := [h] + t; s[|s| - 1] == t[|t| - 1] && s[..|s| - 1] + [x] == [h] + (t[..|t| - 1] + [x])
  {
    var s := [h] + t;
    assert s[..|s| - 1] == [h] + t[..|t| - 1];
  }

  /** Joining parts that do not contain the separator, then splitting, gives the parts back. */
  lemma {:induction false} SplitJoin(parts: seq<string>, sep: char)
    requires parts != []
    requires forall j :: 0 <= j < |parts| ==> !Has(parts[j], sep)
    ensures Split(Join(parts, sep), sep) == parts
    decreases |parts|
  {
    if |parts| == 1 {
      SplitNoSep(parts[0], sep);
    } else {
      var init := parts[..|parts| - 1];
      SplitJoin(init, sep);
      SplitLastSegment(Join(init, sep), parts[|parts| - 1], sep);
      assert init + [parts[|parts| - 1]] == parts;
    }
  }

  /** Joining never introduces a character that is neither the separator nor in a part. */
  lemma {:induction false} JoinLacks(parts: seq<string>, sep: char, c: char)
    requires c != sep
    requires forall j :: 0 <= j < |parts| ==> !Has(parts[j], c)
    ensures !Has(Join(parts, sep), c)
    decreases |parts|
  {
    if |parts| > 1 {
      JoinLacks(parts[..|parts| - 1], sep, c);
      var a := Join(parts[..|parts| - 1], sep);
      var b := parts[|parts| - 1];
      var s := a + [sep] + b;
      forall i | 0 <= i < |s| ensures s[i] != c {
        if i < |a| { assert s[i] == a[i]; }
        else if i > |a| { assert s[i] == b[i - |a| - 1]; }
      }
    }
  }

  /** The position of the first occurrence of `c` in `s`. */
  function FirstIndex(s: string, c: char): (i: nat)
    requires Has(s, c)
    ensures i < |s| && s[i] == c && !Has(s[..i], c)
  {
    if s[0] == c then 0
    else
      assert Has(s[1..], c) by {
        var k :| 0 <= k < |s| && s[k] == c;
        assert s[1..][k - 1] == c;
      }
      var j := FirstIndex(s[1..], c);
      assert s[..j + 1] == [s[0]] + s[1..][..j];
      j + 1
  }

  /** The decimal digit for a number below ten. */
  function DigitChar(d: nat): (c: char)
    requires d < 10
    ensures IsDigit(c) && c as int - '0' as int == d
  {
    ('0' as int + d) as char
  }

  /** `String(n)` for a non-negative integer. */
  function NatToString(n: nat): (s: string)
    ensures |s| >= 1
    ensures forall i :: 0 <= i < |s| ==> IsDigit(s[i])
  {
    if n < 10 then [DigitChar(n)] else NatToString(n / 10) + [DigitChar(n % 10)]
  }

  /** `String(i)` for an integer: a minus sign before the magnitude's digits. */
  function IntToString(i: int): (s: string)
    ensures |s| > 0
    ensures i < 0 <==> s[0] == '-'
  {
    if i < 0 then "-" + NatToString(-i) else NatToString(i)
  }

  /** Minor units (pesewas) in one major unit (cedi). */
  const MinorPerMajor := 100

  /** The fraction part of a rendered amount: none, one digit, or two, with no trailing zero. */
  function Cents(c: nat): (s: string)
    requires c < MinorPerMajor
  {
    if c == 0 then "" else if c % 10 == 0 then "." + [DigitChar(c / 10)] else "." + [DigitChar(c / 10), DigitChar(c % 10)]
  }

  /**
   * `String(x)` of an amount `x` in cedis, given in minor units: the whole
   * cedis, then the pesewas as a shortest decimal fraction.
   */
  function MoneyText(minor: int): (s: string)
    ensures |s| > 0 && (minor < 0 <==> s[0] == '-')
    ensures minor % MinorPerMajor == 0 ==> s == IntToString(minor / MinorPerMajor)
  {
    var m := if minor < 0 then -minor else minor;
    var text := NatToString(m / MinorPerMajor) + Cents(m % MinorPerMajor);
    assert IsDigit(text[0]);
    if minor < 0 then "-" + text else text
  }

  function DigitValue(c: char): int { c as int - '0' as int }

  /** The fraction read back from the end of an unsigned rendering, and the text before it. */
  function SplitCents(body: string): (r: (string, nat))
    ensures |r.0| <= |body|
  {
    var n := |body|;
    if n >= 3 && body[n - 3] == '.' && IsDigit(body[n - 2]) && IsDigit(body[n - 1]) then
      (body[..n - 3], (DigitValue(body[n - 2]) * 10 + DigitValue(body[n - 1])) as nat)
    else if n >= 2 && body[n - 2] == '.' && IsDigit(body[n - 1]) then (body[..n - 2], (DigitValue(body[n - 1]) * 10) as nat)
    else (body, 0)
  }

  /** `Number(s)` of a rendered amount, in minor units: none when `s` is not such a rendering. */
  function ParseMoney(s: string): (r: Option<int>)
  {
    var negative := |s| > 0 && s[0] == '-';
    var (whole, cents) := SplitCents(if negative then s[1..] else s);
    if whole == [] || exists i :: 0 <= i < |whole| && !IsDigit(whole[i]) then None
    else
      var m := ParseNat(whole) * MinorPerMajor + cents;
      Some(if negative then -m else m)
  }

  lemma CentsSplit(w: string, c: nat)
    requires c < MinorPerMajor && |w| > 0 && forall i :: 0 <= i < |w| ==> IsDigit(w[i])
    ensures SplitCents(w + Cents(c)) == (w, c)
  {
    var b := w + Cents(c);
    var n := |b|;
    if c == 0 {
      assert b == w;
      assert IsDigit(b[n - 1]);
      if n >= 2 { assert IsDigit(b[n - 2]); }
      if n >= 3 { assert IsDigit(b[n - 3]); }
    } else if c % 10 == 0 {
      assert b[..n - 2] == w;
      if n >= 3 { assert IsDigit(b[n - 3]); }
    } else {
      assert b[..n - 3] == w;
    }
  }

  /** Every rendered amount reads back as the amount, so distinct amounts render differently. */
  lemma MoneyTextRoundTrip(minor: int)
    ensures ParseMoney(MoneyText(minor)) == Some(minor)
  {
    var m := if minor < 0 then -minor else minor;
    var w := NatToString(m / MinorPerMajor);
    var text := w + Cents(m % MinorPerMajor);
    CentsSplit(w, m % MinorPerMajor);
    ParseNatToString(m / MinorPerMajor);
    var s := MoneyText(minor);
    if minor < 0 {
      assert s[1..] == text;
    } else {
      assert IsDigit(s[0]);
    }
  }

  /** The value of a run of decimal digits (`Number(s)` on such a run). */
  function ParseNat(s: string): nat
    requires forall i :: 0 <= i < |s| ==> IsDigit(s[i])
  {
    if s == [] then 0
    else
      assert IsDigit(s[|s| - 1]);
      ParseNat(s[..|s| - 1]) * 10 + (s[|s| - 1] as int - '0' as int)
  }

  lemma {:induction false} ParseNatToString(n: nat)
    ensures ParseNat(NatToString(n)) == n
  {
    if n >= 10 {
      var s := NatToString(n);
      ParseNatToString(n / 10);
      assert s[..|s| - 1] == NatToString(n / 10);
    }
  }

  function Repeat(c: char, n: nat): (r: string)
    ensures |r| == n && forall i :: 0 <= i < n ==> r[i] == c
  {
    seq(n, i => c)
  }

  /** `s.padStart(width, c)`. */
  function PadStart(s: string, width: nat, c: char): (r: string)
    ensures |r| == if |s| >= width then |s| else width
    ensures r[|r| - |s|..] == s
    ensures forall i :: 0 <= i < |r| - |s| ==> r[i] == c
  {
    if |s| >= width then s else Repeat(c, width - |s|) + s
  }

  lemma {:induction false} ParseNatLeadingZeros(z: nat, s: string)
    requires forall i :: 0 <= i < |s| ==> IsDigit(s[i])
    ensures ParseNat(Repeat('0', z) + s) == ParseNat(s)
    decreases |s|
  {
    var zs := Repeat('0', z);
    if s == [] {
      ParseZeros(z);
      assert zs + s == zs;
    } else {
      var t := zs + s;
      assert t[..|t| - 1] == zs + s[..|s| - 1];
      ParseNatLeadingZeros(z, s[..|s| - 1]);
    }
  }

  lemma {:induction false} ParseZeros(z: nat)
    ensures ParseNat(Repeat('0', z)) == 0
  {
    if z > 0 {
      assert Repeat('0', z)[..z - 1] == Repeat('0', z - 1);
      ParseZeros(z - 1);
    }
  }

  /** A zero-padded decimal rendering reads back as the number it rendered. */
  lemma PaddedNatRoundTrip(n: nat, width: nat)
    ensures var r := PadStart(NatToString(n), width, '0');
            (forall i :: 0 <= i < |r| ==> IsDigit(r[i])) && ParseNat(r) == n
  {
    var s := NatToString(n);
    ParseNatToString(n);
    if |s| < width {
      ParseNatLeadingZeros(width - |s|, s);
    }
  }

  /** Length of the leading run of non-space characters. */
  function RunLength(s: string): (n: nat)
    ensures n <= |s|
    ensures forall i :: 0 <= i < n ==> !IsSpace(s[i])
    ensures n < |s| ==> IsSpace(s[n])
  {
    if s == [] || IsSpace(s[0]) then 0 else 1 + RunLength(s[1..])
  }

  /** `s.trim().split(/\s+/).filter(Boolean)`: the maximal runs of non-space characters. */
  function Words(s: string): (ws: seq<string>)
    ensures forall j :: 0 <= j < |ws| ==> ws[j] != [] && !IsSpace(ws[j][0])
    decreases |s|
  {
    if s == [] then []
    else if IsSpace(s[0]) then Words(s[1..])
    else
      var n := RunLength(s);
      [s[..n]] + Words(s[n..])
  }
}
