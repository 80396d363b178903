/** Strings and the few JavaScript value conventions the front-end relies on:
    `undefined`/`null` as `None`, the falsy empty string, `String.prototype.includes`,
    decimal rendering of numbers in template literals and `parseInt` on digit runs,
    and splitting a path on `/`. */
module Text {

  datatype Option<+T> = None | Some(value: T)

  /** A string-or-missing value is truthy in JavaScript when it is present and non-empty. */
  predicate Truthy(m: Option<string>) {
    m.Some? && m.value != []
  }

  /** JavaScript's `m || fallback` for a value that is a string, `undefined` or `null`. */
  function OrElse(m: Option<string>, fallback: string): string {
    if Truthy(m) then m.value else fallback
  }

  predicate IsDigit(c: char) { '0' <= c <= '9' }

  predicate IsAsciiLetter(c: char) { 'a' <= c <= 'z' || 'A' <= c <= 'Z' }

  predicate AllDigits(s: string) {
    forall i :: 0 <= i < |s| ==> IsDigit(s[i])
  }

  predicate OccursAt(p: string, s: string, i: int) {
    0 <= i && i + |p| <= |s| && s[i..i + |p|] == p
  }

  /** `s.includes(p)`: plain substring containment. */
  predicate Contains(s: string, p: string) {
    exists i :: 0 <= i <= |s| - |p| && OccursAt(p, s, i)
  }

  /** Containment survives text added on either side. */
  lemma ContainsExtended(s: string, p: string, before: string, after: string)
    requires Contains(s, p)
    ensures Contains(before + s + after, p)
  {
    var i :| 0 <= i <= |s| - |p| && OccursAt(p, s, i);
    var big := before + s + after;
    var j := |before| + i;
    assert big[j..j + |p|] == s[i..i + |p|];
    assert OccursAt(p, big, j);
  }

  /** A string containing `p + q` contains `p`. */
  lemma ContainsPrefixOf(s: string, p: string, q: string)
    requires Contains(s, p + q)
    ensures Contains(s, p)
  {
    var i :| 0 <= i <= |s| - |p + q| && OccursAt(p + q, s, i);
    assert s[i..i + |p|] == (p + q)[..|p|] == p;
    assert OccursAt(p, s, i);
  }

  lemma SliceSplit(s: string, i: int, j: int, k: int)
    requires 0 <= i <= j <= k <= |s|
    ensures s[i..k] == s[i..j] + s[j..k]
  {
  }

  /** The parts of an occurrence are occurrences of the parts. */
  lemma OccursAtSlice(p: string, s: string, i: int, x: int, y: int)
    requires OccursAt(p, s, i) && 0 <= x <= y <= |p|
    ensures s[i + x..i + y] == p[x..y]
  {
    forall k | 0 <= k < y - x ensures s[i + x..i + y][k] == p[x..y][k] {
      assert s[i..i + |p|][x + k] == s[i + x + k];
    }
  }

  /** An occurrence of a concatenation is an occurrence of each part, one after the other. */
  lemma OccursAtConcat(x: string, y: string, s: string, i: int)
    ensures OccursAt(x + y, s, i) <==> OccursAt(x, s, i) && OccursAt(y, s, i + |x|)
  {
    if OccursAt(x + y, s, i) {
      OccursAtSlice(x + y, s, i, 0, |x|);
      OccursAtSlice(x + y, s, i, |x|, |x + y|);
      assert (x + y)[..|x|] == x && (x + y)[|x|..] == y;
    }
    if OccursAt(x, s, i) && OccursAt(y, s, i + |x|) {
      SliceSplit(s, i, i + |x|, i + |x| + |y|);
    }
  }

  // ---------------------------------------------------------------------------
  // Decimal numbers: `${n}` for a non-negative integer, and `parseInt` of a digit run.

  function DigitChar(d: nat): char
    requires d < 10
  {
    ('0' as int + d) as char
  }

  function DigitValue(c: char): nat
    requires IsDigit(c)
  {
    c as int - '0' as int
  }

  /** The decimal text of `n`, as a template literal renders a non-negative integer. */
  function NatToString(n: nat): (s: string)
    ensures |s| > 0 && AllDigits(s)
    ensures s[0] == '0' <==> n == 0
    ensures |s| == 1 <==> n < 10
    decreases n
  {
    if n < 10 then [DigitChar(n)] else NatToString(n / 10) + [DigitChar(n % 10)]
  }

  /** The value of a run of decimal digits (`parseInt` on text that is only digits). */
  function ParseDigits(s: string): nat
    requires AllDigits(s)
  {
    if s == [] then 0 else ParseDigits(s[..|s| - 1]) * 10 + DigitValue(s[|s| - 1])
  }

  /** A number's decimal text with one more digit appended is the text of the larger number. */
  lemma NatToStringAppendDigit(n: nat, d: nat)
    requires 0 < n && d < 10
    ensures NatToString(10 * n + d) == NatToString(n) + [DigitChar(d)]
  {
    assert (10 * n + d) / 10 == n && (10 * n + d) % 10 == d;
  }

  lemma {:induction false} ParseNatToString(n: nat)
    ensures ParseDigits(NatToString(n)) == n
    decreases n
  {
    var s := NatToString(n);
    if n < 10 {
      assert s[..0] == [];
    } else {
      ParseNatToString(n / 10);
      assert s[..|s| - 1] == NatToString(n / 10);
    }
  }

  /** Text without a leading zero (other than "0" itself) is what rendering its value gives back. */
  lemma {:induction false} NatToStringParse(s: string)
    requires |s| > 0 && AllDigits(s)
    requires |s| > 1 ==> s[0] != '0'
    ensures NatToString(ParseDigits(s)) == s
    decreases |s|
  {
    var init := s[..|s| - 1];
    var d := DigitValue(s[|s| - 1]);
    if |s| == 1 {
      assert init == [];
      assert [DigitChar(d)] == s;
    } else {
      assert init[0] == s[0];
      NatToStringParse(init);
      ParseDigitsPositive(init);
      NatToStringAppendDigit(ParseDigits(init), d);
      assert s == init + [s[|s| - 1]];
    }
  }

  lemma {:induction false} ParseDigitsPositive(s: string)
    requires |s| > 0 && AllDigits(s) && s[0] != '0'
    ensures ParseDigits(s) > 0
    decreases |s|
  {
    if |s| > 1 {
      var init := s[..|s| - 1];
      assert init[0] == s[0];
      ParseDigitsPositive(init);
    }
  }

  lemma DigitsHaveNoSlash(s: string)
    requires AllDigits(s)
    ensures '/' !in s
  {
    forall i | 0 <= i < |s| ensures s[i] != '/' { assert IsDigit(s[i]); }
  }

  /** Distinct numbers render as distinct text. */
  lemma NatToStringInjective(m: nat, n: nat)
    requires NatToString(m) == NatToString(n)
    ensures m == n
  {
    ParseNatToString(m);
    ParseNatToString(n);
  }

  // ---------------------------------------------------------------------------
  // Splitting on a separator, and joining back.

  /** `s.split(sep)`: the maximal separator-free pieces of `s`, in order. */
  function Split(s: string, sep: char): (parts: seq<string>)
    ensures |parts| > 0
    decreases |s|
  {
    if s == [] then [[]]
    else
      var rest := Split(s[1..], sep);
      if s[0] == sep then [[]] + rest
      else [[s[0]] + rest[0]] + rest[1..]
  }

  /** `parts.join(sep)`. */
  function Join(parts: seq<string>, sep: char): string
  {
    if parts == [] then []
    else if |parts| == 1 then parts[0]
    else parts[0] + [sep] + Join(parts[1..], sep)
  }

  lemma JoinCons(p: string, ps: seq<string>, sep: char)
    requires ps != []
    ensures Join([p] + ps, sep) == p + [sep] + Join(ps, sep)
  {
    assert ([p] + ps)[1..] == ps;
  }

  /** Joining two non-empty lists of pieces. */
  lemma {:induction false} JoinAppend(xs: seq<string>, ys: seq<string>, sep: char)
    requires xs != [] && ys != []
    ensures Join(xs + ys, sep) == Join(xs, sep) + [sep] + Join(ys, sep)
    decreases |xs|
  {
    if |xs| == 1 {
      JoinCons(xs[0], ys, sep);
      assert [xs[0]] + ys == xs + ys;
    } else {
      JoinAppend(xs[1..], ys, sep);
      assert (xs + ys)[1..] == xs[1..] + ys;
    }
  }

  lemma JoinFour(a: string, b: string, c: string, d: string, sep: char)
    ensures Join([a, b, c, d], sep) == a + [sep] + b + [sep] + c + [sep] + d
  {
    JoinCons(c, [d], sep);
    assert [c] + [d] == [c, d];
    JoinCons(b, [c, d], sep);
    assert [b] + [c, d] == [b, c, d];
    JoinCons(a, [b, c, d], sep);
    assert [a] + [b, c, d] == [a, b, c, d];
  }

  lemma {:induction false} SplitSeparatorFree(a: string, sep: char)
    requires sep !in a
    ensures Split(a, sep) == [a]
    decreases |a|
  {
    if a != [] {
      SplitSeparatorFree(a[1..], sep);
      assert [a[0]] + a[1..] == a;
    }
  }

  lemma {:induction false} SplitAfterPiece(a: string, b: string, sep: char)
    requires sep !in a
    ensures Split(a + [sep] + b, sep) == [a] + Split(b, sep)
    decreases |a|
  {
    var s := a + [sep] + b;
    if a == [] {
      assert s[1..] == b;
    } else {
      assert s[1..] == a[1..] + [sep] + b;
      SplitAfterPiece(a[1..], b, sep);
      assert [a[0]] + a[1..] == a;
    }
  }

  /** Joining separator-free pieces and splitting again gives the pieces back. */
  lemma {:induction false} SplitJoin(parts: seq<string>, sep: char)
    requires |parts| > 0
    requires forall k :: 0 <= k < |parts| ==> sep !in parts[k]
    ensures Split(Join(parts, sep), sep) == parts
    decreases |parts|
  {
    if |parts| == 1 {
      SplitSeparatorFree(parts[0], sep);
    } else {
      SplitJoin(parts[1..], sep);
      SplitAfterPiece(parts[0], Join(parts[1..], sep), sep);
      assert [parts[0]] + parts[1..] == parts;
    }
  }

  /** Splitting and joining again gives the text back. */
  lemma {:induction false} JoinSplit(s: string, sep: char)
    ensures Join(Split(s, sep), sep) == s
    decreases |s|
  {
    if s != [] {
      JoinSplit(s[1..], sep);
      assert s == [s[0]] + s[1..];
      if s[0] == sep {
        JoinCons([], Split(s[1..], sep), sep);
      } else {
        JoinSplitPrepend(s[0], s[1..], sep);
      }
    }
  }

  lemma JoinSplitPrepend(c: char, t: string, sep: char)
    requires c != sep && Join(Split(t, sep), sep) == t
    ensures Join(Split([c] + t, sep), sep) == [c] + t
  {
    var rest := Split(t, sep);
    assert ([c] + t)[1..] == t;
    assert Split([c] + t, sep) == [[c] + rest[0]] + rest[1..];
    if |rest| > 1 {
      JoinCons([c] + rest[0], rest[1..], sep);
      JoinCons(rest[0], rest[1..], sep);
      assert [rest[0]] + rest[1..] == rest;
    }
  }

  function Last<T>(xs: seq<T>): T
    requires xs != []
  {
    xs[|xs| - 1]
  }

  /** Splitting a concatenation: the last piece of `a` fuses with the first piece of `b`. */
  lemma {:induction false} SplitConcat(a: string, b: string, sep: char)
    ensures var pa, pb := Split(a, sep), Split(b, sep);
      Split(a + b, sep) == pa[..|pa| - 1] + [Last(pa) + pb[0]] + pb[1..]
    decreases |a|
  {
    if a != [] {
      var pb := Split(b, sep);
      var rest := Split(a[1..], sep);
      assert (a + b)[0] == a[0];
      assert (a + b)[1..] == a[1..] + b;
      SplitConcat(a[1..], b, sep);
      if a[0] == sep {
        FuseAfterSeparator(rest, pb[0], pb[1..]);
      } else {
        FuseAfterChar(a[0], rest, pb[0], pb[1..]);
      }
    } else {
      var pa, pb := Split(a, sep), Split(b, sep);
      assert a + b == b;
      assert pa == [[]];
      assert Last(pa) + pb[0] == pb[0];
      assert [pb[0]] + pb[1..] == pb;
    }
  }

  /** `SplitConcat`'s step when `a` starts with the separator: the fused piece stays last. */
  lemma FuseAfterSeparator(rest: seq<string>, p0: string, tail: seq<string>)
    requires rest != []
    ensures var pa := [[]] + rest;
      [[]] + (rest[..|rest| - 1] + [Last(rest) + p0] + tail) == pa[..|pa| - 1] + [Last(pa) + p0] + tail
  {
    var pa := [[]] + rest;
    assert pa[..|pa| - 1] == [[]] + rest[..|rest| - 1];
  }

  /** `SplitConcat`'s step when `a` starts with another character, which joins the first piece. */
  lemma FuseAfterChar(c: char, rest: seq<string>, p0: string, tail: seq<string>)
    requires rest != []
    ensures var pa, r := [[c] + rest[0]] + rest[1..], rest[..|rest| - 1] + [Last(rest) + p0] + tail;
      [[c] + r[0]] + r[1..] == pa[..|pa| - 1] + [Last(pa) + p0] + tail
  {
    var pa, r := [[c] + rest[0]] + rest[1..], rest[..|rest| - 1] + [Last(rest) + p0] + tail;
    if |rest| == 1 {
      assert r == [rest[0] + p0] + tail;
      assert [c] + (rest[0] + p0) == [c] + rest[0] + p0;
      assert pa[..|pa| - 1] == [];
    } else {
      assert r[0] == rest[0];
      assert r[1..] == rest[1..|rest| - 1] + [Last(rest) + p0] + tail;
      assert pa[..|pa| - 1] == [[c] + rest[0]] + rest[1..|rest| - 1];
    }
  }
}
