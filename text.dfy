/**
 * The string operations of Go's `strings`/`bytes`/`strconv` packages that the
 * model needs, on `string`: a sequence of Unicode code points, which a Go
 * string holds as their UTF-8 bytes (`Base64.Utf8`), so a Go length `len(s)`
 * is `|Base64.Utf8(s)|`. On valid UTF-8, searching and replacing bytes and
 * searching and replacing code points agree.
 */
module Text {

  /** `sub` occurs in `s` starting at index `i`. */
  predicate OccursAt(s: string, sub: string, i: int) {
    0 <= i && i + |sub| <= |s| && s[i..i + |sub|] == sub
  }

  /** `strings.Contains`. */
  predicate Contains(s: string, sub: string) {
    exists i :: 0 <= i <= |s| - |sub| && OccursAt(s, sub, i)
  }

  /** `strings.HasPrefix`. */
  predicate HasPrefix(s: string, p: string) {
    |p| <= |s| && s[..|p|] == p
  }

  /** No character of `a` occurs in `b`. */
  predicate Disjoint(a: string, b: string) {
    forall j :: 0 <= j < |a| ==> a[j] !in b
  }

  /**
   * `strings.Replace(s, pat, rep, -1)`: scanning left to right, every
   * non-overlapping occurrence of `pat` is replaced by `rep`.  An empty `pat`
   * matches before every character and at the end.
   */
  function ReplaceAll(s: string, pat: string, rep: string): string
  {
    if pat == [] then Interleave(s, rep) else Replace(s, pat, rep)
  }

  /** `rep` before every character of `s` and once more at the end. */
  function Interleave(s: string, rep: string): string
  {
    if s == [] then rep else rep + [s[0]] + Interleave(s[1..], rep)
  }

  /** ReplaceAll for a non-empty pattern. */
  function Replace(s: string, pat: string, rep: string): string
    requires pat != []
    decreases |s|
  {
    if s == [] then []
    else if OccursAt(s, pat, 0) then rep + Replace(s[|pat|..], pat, rep)
    else [s[0]] + Replace(s[1..], pat, rep)
  }

  /** `strings.Replace(s, pat, rep, 1)`: only the first occurrence is replaced. */
  function ReplaceFirst(s: string, pat: string, rep: string): (r: string)
    ensures !Contains(s, pat) ==> r == s
    decreases |s|
  {
    if |s| < |pat| then s
    else if s[..|pat|] == pat then
      assert OccursAt(s, pat, 0);
      rep + s[|pat|..]
    else
      var tail := ReplaceFirst(s[1..], pat, rep);
      assert !Contains(s, pat) ==> !Contains(s[1..], pat) by {
        forall i | OccursAt(s[1..], pat, i) ensures OccursAt(s, pat, i + 1) {
          assert s[1..][i..i + |pat|] == s[i + 1..i + 1 + |pat|];
        }
      }
      [s[0]] + tail
  }

  /**
   * `strings.Replace(s, pat, rep, 1)` replaces exactly the first occurrence:
   * when `pat` first occurs at `i`, the result is the text before it, the
   * replacement, and the text after it.
   */
  lemma {:induction false} ReplaceFirstAt(s: string, pat: string, rep: string, i: nat)
    requires OccursAt(s, pat, i) && forall k :: 0 <= k < i ==> !OccursAt(s, pat, k)
    ensures ReplaceFirst(s, pat, rep) == s[..i] + rep + s[i + |pat|..]
    decreases i
  {
    if i == 0 {
      assert s[..|pat|] == pat;
    } else {
      var t := s[1..];
      ReplaceFirstStep(s, pat, rep);
      NoEarlierInTail(s, pat, i);
      ReplaceFirstAt(t, pat, rep, i - 1);
      assert [s[0]] + t[..i - 1] == s[..i];
      assert t[i - 1 + |pat|..] == s[i + |pat|..];
    }
  }

  /** A text that contains the pattern has a first occurrence of it. */
  lemma {:induction false} FirstOccurrence(s: string, pat: string) returns (i: nat)
    requires Contains(s, pat)
    ensures OccursAt(s, pat, i) && forall k :: 0 <= k < i ==> !OccursAt(s, pat, k)
    decreases |s|
  {
    if OccursAt(s, pat, 0) {
      return 0;
    }
    var j :| 0 <= j <= |s| - |pat| && OccursAt(s, pat, j);
    var t := s[1..];
    ShiftOccurs(s, pat, j);
    var m := FirstOccurrence(t, pat);
    i := m + 1;
    ShiftOccurs(s, pat, i);
    forall k | 0 < k < i ensures !OccursAt(s, pat, k) {
      ShiftOccurs(s, pat, k);
    }
  }

  /** Without an occurrence at 0, a text at least as long as the pattern keeps its first character and replaces in its tail. */
  lemma ReplaceFirstStep(s: string, pat: string, rep: string)
    requires |s| > |pat| && !OccursAt(s, pat, 0)
    ensures ReplaceFirst(s, pat, rep) == [s[0]] + ReplaceFirst(s[1..], pat, rep)
  {
    assert s[..|pat|] != pat;
  }

  /** A first occurrence at `i > 0` is, in the tail, a first occurrence at `i - 1`. */
  lemma NoEarlierInTail(s: string, pat: string, i: nat)
    requires 0 < i && OccursAt(s, pat, i) && forall k :: 0 <= k < i ==> !OccursAt(s, pat, k)
    ensures |s| > |pat| && !OccursAt(s, pat, 0)
    ensures OccursAt(s[1..], pat, i - 1) && forall k :: 0 <= k < i - 1 ==> !OccursAt(s[1..], pat, k)
  {
    ShiftOccurs(s, pat, i);
    forall k | 0 <= k < i - 1 ensures !OccursAt(s[1..], pat, k) {
      ShiftOccurs(s, pat, k + 1);
    }
  }

  /** An occurrence at `k >= 1` is an occurrence at `k - 1` of the text without its first character, and back. */
  lemma ShiftOccurs(s: string, pat: string, k: nat)
    requires s != [] && 1 <= k
    ensures OccursAt(s, pat, k) <==> OccursAt(s[1..], pat, k - 1)
  {
    if k + |pat| <= |s| {
      assert s[1..][k - 1..k - 1 + |pat|] == s[k..k + |pat|];
    }
  }

  /** An occurrence in a suffix is an occurrence in the whole string. */
  lemma OccursInSuffix(s: string, k: nat, pat: string, i: int)
    requires k <= |s| && OccursAt(s[k..], pat, i)
    ensures OccursAt(s, pat, i + k)
  {
    assert s[k..][i..i + |pat|] == s[i + k..i + k + |pat|];
  }

  /** An occurrence of a non-empty `a` starts with a character of `a`. */
  lemma OccurrenceHead(s: string, a: string, i: int)
    requires a != []
    ensures OccursAt(s, a, i) ==> s[i] in a
  {
    if OccursAt(s, a, i) {
      assert s[i..i + |a|][0] == s[i];
    }
  }

  /** Occurrences in `k + t` that start past `k` are occurrences in `t`. */
  lemma NoneAfter(k: string, t: string, a: string)
    requires !Contains(t, a)
    requires forall i :: 0 <= i < |k| ==> !OccursAt(k + t, a, i)
    ensures !Contains(k + t, a)
  {
    forall i | |k| <= i ensures !OccursAt(k + t, a, i) {
      if OccursAt(k + t, a, i) {
        assert (k + t)[i..i + |a|] == t[i - |k|..i - |k| + |a|];
        assert OccursAt(t, a, i - |k|);
        assert false;
      }
    }
  }

  /** No occurrence of `a` starts inside a prefix whose characters avoid `a`. */
  lemma NoneInside(k: string, t: string, a: string)
    requires a != [] && Disjoint(k, a)
    ensures forall i :: 0 <= i < |k| ==> !OccursAt(k + t, a, i)
  {
    forall i | 0 <= i < |k| ensures !OccursAt(k + t, a, i) {
      OccurrenceHead(k + t, a, i);
      assert (k + t)[i] == k[i];
    }
  }

  /** A string in which `pat` does not occur is returned unchanged. */
  lemma {:induction false} ReplaceAbsent(s: string, pat: string, rep: string)
    requires pat != [] && !Contains(s, pat)
    ensures Replace(s, pat, rep) == s
    decreases |s|
  {
    if s != [] {
      assert !OccursAt(s, pat, 0);
      forall i | OccursAt(s[1..], pat, i) ensures false {
        OccursInSuffix(s, 1, pat, i);
      }
      ReplaceAbsent(s[1..], pat, rep);
      assert s == [s[0]] + s[1..];
    }
  }

  lemma NoneInTail(x: string, y: string, pat: string)
    requires x != [] && forall i :: 0 <= i < |x| ==> !OccursAt(x + y, pat, i)
    ensures forall i :: 0 <= i < |x| - 1 ==> !OccursAt(x[1..] + y, pat, i)
  {
    var s := x + y;
    assert s[1..] == x[1..] + y;
    forall i | 0 <= i < |x| - 1 ensures !OccursAt(x[1..] + y, pat, i) {
      if OccursAt(x[1..] + y, pat, i) {
        OccursInSuffix(s, 1, pat, i);
        assert false;
      }
    }
  }

  /** Text in front of the first occurrence of `pat` is copied unchanged. */
  lemma {:induction false} ReplaceKeepsPrefix(x: string, y: string, pat: string, rep: string)
    requires pat != []
    requires forall i :: 0 <= i < |x| ==> !OccursAt(x + y, pat, i)
    ensures Replace(x + y, pat, rep) == x + Replace(y, pat, rep)
    decreases |x|
  {
    if x == [] {
      assert x + y == y;
    } else {
      var s := x + y;
      assert !OccursAt(s, pat, 0);
      assert s[1..] == x[1..] + y;
      NoneInTail(x, y, pat);
      ReplaceKeepsPrefix(x[1..], y, pat, rep);
      assert x + Replace(y, pat, rep) == [x[0]] + (x[1..] + Replace(y, pat, rep));
    }
  }

  /** A leading occurrence of `pat` becomes `rep`. */
  lemma ReplaceLeading(y: string, pat: string, rep: string)
    requires pat != []
    ensures Replace(pat + y, pat, rep) == rep + Replace(y, pat, rep)
  {
    assert (pat + y)[..|pat|] == pat;
    assert (pat + y)[|pat|..] == y;
  }

  /**
   * While the output of Replace shows only characters of `a`, and `a`
   * does not contain the first character of a non-empty `rep`, no
   * replacement has happened yet: the output equals the input.
   */
  lemma {:induction false} KeptPrefix(t: string, pat: string, rep: string, a: string, m: nat)
    requires pat != [] && rep != [] && rep[0] !in a
    requires m <= |Replace(t, pat, rep)|
    requires forall j :: 0 <= j < m ==> Replace(t, pat, rep)[j] in a
    ensures m <= |t| && t[..m] == Replace(t, pat, rep)[..m]
    decreases |t|
  {
    var r := Replace(t, pat, rep);
    if t != [] && m > 0 {
      assert r[0] in a;
      assert !OccursAt(t, pat, 0);
      var r' := Replace(t[1..], pat, rep);
      forall j | 0 <= j < m - 1 ensures r'[j] in a {
        assert r'[j] == r[j + 1];
      }
      KeptPrefix(t[1..], pat, rep, a, m - 1);
      assert t[..m] == [t[0]] + t[1..][..m - 1];
      assert r[..m] == [t[0]] + r'[..m - 1];
    }
  }

  /**
   * An input that does not start with `pat` keeps its first character, and
   * an occurrence of `a` at the start of the output that avoids the first
   * character of `rep` was already at the start of the input.
   */
  lemma FrontKept(s: string, pat: string, rep: string, a: string)
    requires pat != [] && rep != [] && a != [] && rep[0] !in a && s != []
    requires !OccursAt(s, pat, 0)
    ensures OccursAt(Replace(s, pat, rep), a, 0) ==> OccursAt(s, a, 0)
  {
    var r := Replace(s, pat, rep);
    var r' := Replace(s[1..], pat, rep);
    assert r == [s[0]] + r';
    if OccursAt(r, a, 0) {
      var m := |a| - 1;
      forall j | 0 <= j < m ensures r'[j] in a {
        assert r'[j] == r[j + 1] == a[j + 1];
      }
      KeptPrefix(s[1..], pat, rep, a, m);
      assert s[..|a|] == [s[0]] + s[1..][..m];
      assert r[..|a|] == [s[0]] + r'[..m];
    }
  }

  /**
   * Replacing with a non-empty text that shares no character with `pat`
   * leaves no occurrence of `pat` behind.
   */
  lemma {:induction false} ReplaceRemovesAll(s: string, pat: string, rep: string)
    requires pat != [] && rep != [] && Disjoint(rep, pat)
    ensures !Contains(Replace(s, pat, rep), pat)
    decreases |s|
  {
    if s == [] {
      assert Replace(s, pat, rep) == [];
    } else if OccursAt(s, pat, 0) {
      ReplaceRemovesAll(s[|pat|..], pat, rep);
      NoneInside(rep, Replace(s[|pat|..], pat, rep), pat);
      NoneAfter(rep, Replace(s[|pat|..], pat, rep), pat);
    } else {
      ReplaceRemovesAll(s[1..], pat, rep);
      FrontKept(s, pat, rep, pat);
      NoneAfter([s[0]], Replace(s[1..], pat, rep), pat);
    }
  }

  /**
   * Replacing `pat` with a non-empty text that shares no character with `a`
   * cannot create an occurrence of `a`.
   */
  lemma {:induction false} ReplaceCreatesNothing(s: string, pat: string, rep: string, a: string)
    requires pat != [] && rep != [] && a != [] && Disjoint(rep, a)
    requires !Contains(s, a)
    ensures !Contains(Replace(s, pat, rep), a)
    decreases |s|
  {
    if s == [] {
      assert Replace(s, pat, rep) == [];
    } else if OccursAt(s, pat, 0) {
      forall i | OccursAt(s[|pat|..], a, i) ensures false {
        OccursInSuffix(s, |pat|, a, i);
      }
      ReplaceCreatesNothing(s[|pat|..], pat, rep, a);
      NoneInside(rep, Replace(s[|pat|..], pat, rep), a);
      NoneAfter(rep, Replace(s[|pat|..], pat, rep), a);
    } else {
      forall i | OccursAt(s[1..], a, i) ensures false {
        OccursInSuffix(s, 1, a, i);
      }
      ReplaceCreatesNothing(s[1..], pat, rep, a);
      assert rep[0] !in a;
      assert !OccursAt(s, a, 0);
      FrontKept(s, pat, rep, a);
      NoneAfter([s[0]], Replace(s[1..], pat, rep), a);
    }
  }

  // ---------------------------------------------------------------- decimal

  predicate IsDigit(c: char) { '0' <= c <= '9' }

  predicate AllDigits(s: string) {
    forall i :: 0 <= i < |s| ==> IsDigit(s[i])
  }

  function DigitChar(d: nat): (c: char)
    requires d < 10
    ensures IsDigit(c) && (c as int) - ('0' as int) == d
  {
    "0123456789"[d]
  }

  /** The decimal text of a natural number, without leading zeros. */
  function NatToDecimal(n: nat): (s: string)
    ensures s != [] && AllDigits(s)
    ensures n > 0 ==> s[0] != '0'
    decreases n
  {
    if n < 10 then [DigitChar(n)] else NatToDecimal(n / 10) + [DigitChar(n % 10)]
  }

  /** The value of a string of decimal digits (`strconv.ParseInt` on digits). */
  function DecimalToNat(s: string): nat
    requires AllDigits(s)
  {
    if s == [] then 0
    else DecimalToNat(s[..|s| - 1]) * 10 + ((s[|s| - 1] as int) - ('0' as int))
  }

  /** Decimal text and its value are inverse to each other. */
  lemma {:induction false} DecimalRoundTrip(n: nat)
    ensures DecimalToNat(NatToDecimal(n)) == n
    decreases n
  {
    if n >= 10 {
      var s := NatToDecimal(n);
      assert s[..|s| - 1] == NatToDecimal(n / 10);
      DecimalRoundTrip(n / 10);
    }
  }

  /** `strconv.Itoa` / `fmt.Sprintf("%d", i)`. */
  function Itoa(i: int): (s: string)
    ensures |s| > 0
    ensures i >= 0 ==> AllDigits(s) && DecimalToNat(s) == i
    ensures i < 0 ==> s[0] == '-' && AllDigits(s[1..]) && DecimalToNat(s[1..]) == -i
  {
    DecimalRoundTrip(if i < 0 then -i else i);
    if i < 0 then "-" + NatToDecimal(-i) else NatToDecimal(i)
  }

  // ------------------------------------------------------------ other text

  /** `strings.Repeat` of a one-character string. */
  function Repeat(c: char, n: nat): (r: string)
    ensures |r| == n
    ensures forall i :: 0 <= i < n ==> r[i] == c
  {
    if n == 0 then [] else Repeat(c, n - 1) + [c]
  }

  function UpperAscii(c: char): char {
    if 'a' <= c <= 'z' then ((c as int) - 32) as char else c
  }

  function LowerAscii(c: char): char {
    if 'A' <= c <= 'Z' then ((c as int) + 32) as char else c
  }

  /** `strings.ToUpper`, on ASCII letters. */
  function ToUpper(s: string): (r: string)
    ensures |r| == |s|
    ensures forall i :: 0 <= i < |s| ==> r[i] == UpperAscii(s[i])
  {
    if s == [] then [] else [UpperAscii(s[0])] + ToUpper(s[1..])
  }

  /** `strings.TrimLeft(s, cutset)`: drop every leading character found in `cutset`. */
  function TrimLeft(s: string, cutset: string): (r: string)
    ensures |r| <= |s| && r == s[|s| - |r|..]
    ensures forall i :: 0 <= i < |s| - |r| ==> s[i] in cutset
    ensures r != [] ==> r[0] !in cutset
  {
    if s != [] && s[0] in cutset then TrimLeft(s[1..], cutset) else s
  }

  /** `strings.TrimRight(s, cutset)`: drop every trailing character found in `cutset`. */
  function TrimRight(s: string, cutset: string): (r: string)
    ensures |r| <= |s| && r == s[..|r|]
    ensures forall i :: |r| <= i < |s| ==> s[i] in cutset
    ensures r != [] ==> r[|r| - 1] !in cutset
  {
    if s != [] && s[|s| - 1] in cutset then TrimRight(s[..|s| - 1], cutset) else s
  }

  /** TrimLeft drops a prefix made only of cutset characters and stops at the first other character. */
  lemma {:induction false} TrimLeftPrefix(pre: string, x: string, cutset: string)
    requires forall i :: 0 <= i < |pre| ==> pre[i] in cutset
    requires x != [] && x[0] !in cutset
    ensures TrimLeft(pre + x, cutset) == x
  {
    if pre == [] {
      assert pre + x == x;
    } else {
      assert (pre + x)[1..] == pre[1..] + x;
      TrimLeftPrefix(pre[1..], x, cutset);
    }
  }

  /** TrimRight drops a suffix made only of cutset characters and stops at the last other character. */
  lemma {:induction false} TrimRightSuffix(x: string, post: string, cutset: string)
    requires forall i :: 0 <= i < |post| ==> post[i] in cutset
    requires x != [] && x[|x| - 1] !in cutset
    ensures TrimRight(x + post, cutset) == x
  {
    if post == [] {
      assert x + post == x;
    } else {
      var front := post[..|post| - 1];
      assert (x + post)[..|x + post| - 1] == x + front;
      assert (x + post)[|x + post| - 1] == post[|post| - 1];
      TrimRightSuffix(x, front, cutset);
    }
  }

  /** The end of the line that holds index `k`: the next newline at or after `k`, or the end of `s`. */
  function LineEnd(s: string, k: nat): (e: nat)
    requires k <= |s|
    ensures k <= e <= |s| && (e == |s| || s[e] == '\n')
    decreases |s| - k
  {
    if k < |s| && s[k] != '\n' then LineEnd(s, k + 1) else k
  }

  /** No newline lies between `k` and the end of its line. */
  lemma {:induction false} LineEndClear(s: string, k: nat, q: nat)
    requires k <= |s| && k <= q < LineEnd(s, k)
    ensures s[q] != '\n'
    decreases |s| - k
  {
    if k < q {
      LineEndClear(s, k + 1, q);
    }
  }

  /** With no newline from `k` on, the line runs to the end of `s`. */
  lemma {:induction false} LineEndNone(s: string, k: nat)
    requires k <= |s| && forall i :: k <= i < |s| ==> s[i] != '\n'
    ensures LineEnd(s, k) == |s|
    decreases |s| - k
  {
    if k < |s| {
      LineEndNone(s, k + 1);
    }
  }

  /** `strings.Join`: the parts with `sep` between each two. */
  function Join(parts: seq<string>, sep: string): (r: string)
    ensures parts == [] ==> r == []
    ensures |parts| == 1 ==> r == parts[0]
  {
    if parts == [] then []
    else if |parts| == 1 then parts[0]
    else Join(parts[..|parts| - 1], sep) + sep + parts[|parts| - 1]
  }
}
