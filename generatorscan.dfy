/**
 * The placeholder scan of requester/generator.go: undoing the URL escaping
 * of braces, and finding every `{i}`, `{f3}`, `{s:5:10}`-style placeholder
 * the pattern `\{(i\d*|f\d*|s\d*)(?::(\d+):(\d+))?\}` matches, left to right
 * and without overlap, as `FindAllSubmatch` reports them.
 */
module GeneratorScan {
  import opened Wrappers
  import opened Text

  // ------------------------------------------------------------ brace escaping

  /** pathEnc: scanning left to right, "%7B" becomes '{' and "%7D" becomes '}'. */
  function DecodeBraces(s: string): (r: string)
    ensures |r| <= |s|
    decreases |s|
  {
    if |s| >= 3 && s[..3] == "%7B" then "{" + DecodeBraces(s[3..])
    else if |s| >= 3 && s[..3] == "%7D" then "}" + DecodeBraces(s[3..])
    else if s == [] then []
    else [s[0]] + DecodeBraces(s[1..])
  }

  /** The escaping `net/url` applies to braces in a path: '{' as "%7B", '}' as "%7D". */
  function EncodeBraces(s: string): (r: string)
    ensures '{' !in r && '}' !in r
  {
    if s == [] then []
    else if s[0] == '{' then "%7B" + EncodeBraces(s[1..])
    else if s[0] == '}' then "%7D" + EncodeBraces(s[1..])
    else [s[0]] + EncodeBraces(s[1..])
  }

  /** Decoding undoes the escaping of a text holding no '%' of its own. */
  lemma {:induction false} DecodeEncode(s: string)
    requires '%' !in s
    ensures DecodeBraces(EncodeBraces(s)) == s
  {
    if s != [] {
      assert '%' !in s[1..] by {
        forall k | 0 <= k < |s| - 1 ensures s[1..][k] != '%' {
          assert s[1..][k] == s[k + 1];
        }
      }
      DecodeEncode(s[1..]);
      var e := EncodeBraces(s[1..]);
      if s[0] == '{' {
        assert ("%7B" + e)[..3] == "%7B" && ("%7B" + e)[3..] == e;
      } else if s[0] == '}' {
        assert ("%7D" + e)[..3] == "%7D" && ("%7D" + e)[3..] == e;
      } else {
        var t := [s[0]] + e;
        assert t[0] == s[0] != '%';
        assert |t| >= 3 ==> t[..3][0] == '%' || t[..3] != "%7B";
        assert t[1..] == e;
      }
    }
  }

  /** A text without '%' passes through unchanged. */
  lemma {:induction false} DecodeNoPercent(s: string)
    requires '%' !in s
    ensures DecodeBraces(s) == s
  {
    if s != [] {
      assert s[0] != '%';
      assert '%' !in s[1..] by {
        forall k | 0 <= k < |s| - 1 ensures s[1..][k] != '%' {
          assert s[1..][k] == s[k + 1];
        }
      }
      DecodeNoPercent(s[1..]);
      assert |s| >= 3 ==> s[..3][0] == s[0];
    }
  }

  // ------------------------------------------------------------ placeholders

  /** The first letter of a placeholder name: int, float or string. */
  predicate IsKind(c: char) { c == 'i' || c == 'f' || c == 's' }

  /** One placeholder as `FindAllSubmatch` reports it: the whole token, the name group and the two range groups (empty when absent). */
  datatype Match = Match(token: string, name: string, lo: string, hi: string)

  /** The text of a placeholder with that name and range. */
  function TokenText(name: string, lo: string, hi: string): string {
    "{" + name + (if lo == [] then "" else ":" + lo + ":" + hi) + "}"
  }

  /** The grammar of a placeholder: a kind letter and digits, then optionally `:digits:digits`, inside braces. */
  predicate WellFormed(m: Match) {
    && |m.name| >= 1 && IsKind(m.name[0]) && AllDigits(m.name[1..])
    && AllDigits(m.lo) && AllDigits(m.hi) && (m.lo == [] <==> m.hi == [])
    && m.token == TokenText(m.name, m.lo, m.hi)
  }

  /** The end of the longest run of digits starting at `i`. */
  function DigitsEnd(s: string, i: nat): (j: nat)
    requires i <= |s|
    ensures i <= j <= |s|
    ensures j == |s| || !IsDigit(s[j])
    decreases |s| - i
  {
    if i < |s| && IsDigit(s[i]) then DigitsEnd(s, i + 1) else i
  }

  /** The placeholder starting at index `i`, if one does. */
  function MatchAt(s: string, i: nat): Option<Match>
    requires i <= |s|
  {
    if i + 1 < |s| && s[i] == '{' && IsKind(s[i + 1]) then AfterName(s, i, DigitsEnd(s, i + 2)) else None
  }

  /** The rest of a placeholder whose name group ends at `j`: a closing brace, or a range. */
  function AfterName(s: string, i: nat, j: nat): Option<Match>
    requires i + 1 < j <= |s|
  {
    if j < |s| && s[j] == '}' then Some(Match(s[i..j + 1], s[i + 1..j], "", ""))
    else if j < |s| && s[j] == ':' then AfterLow(s, i, j, DigitsEnd(s, j + 1))
    else None
  }

  /** The rest of a ranged placeholder whose lower bound ends at `a`. */
  function AfterLow(s: string, i: nat, j: nat, a: nat): Option<Match>
    requires i + 1 < j < a <= |s|
  {
    if j + 1 < a < |s| && s[a] == ':' then AfterHigh(s, i, j, a, DigitsEnd(s, a + 1)) else None
  }

  /** The end of a ranged placeholder whose upper bound ends at `b`. */
  function AfterHigh(s: string, i: nat, j: nat, a: nat, b: nat): Option<Match>
    requires i + 1 < j < a < b <= |s|
  {
    if a + 1 < b < |s| && s[b] == '}' then Some(Match(s[i..b + 1], s[i + 1..j], s[j + 1..a], s[a + 1..b])) else None
  }

  /** The text between `x` and the end of its run of digits is all digits. */
  lemma {:induction false} DigitRun(s: string, x: nat)
    requires x <= |s|
    ensures AllDigits(s[x..DigitsEnd(s, x)])
    decreases |s| - x
  {
    var y := DigitsEnd(s, x);
    if x < y {
      DigitRun(s, x + 1);
      assert s[x..y] == [s[x]] + s[x + 1..y];
    }
  }

  /** A slice of `s` splits off its first character. */
  lemma Uncons(s: string, x: nat, y: nat)
    requires x < y <= |s|
    ensures s[x..y] == [s[x]] + s[x + 1..y]
  {
  }

  /** A slice of `s` splits at any point in between. */
  lemma Split(s: string, x: nat, y: nat, z: nat)
    requires x <= y <= z <= |s|
    ensures s[x..z] == s[x..y] + s[y..z]
  {
  }

  /** The name group of a placeholder: a kind letter, then digits up to `j`. */
  predicate NameAt(s: string, i: nat, j: nat)
    requires i + 1 < j <= |s|
  {
    IsKind(s[i + 1]) && AllDigits(s[i + 2..j])
  }

  /** The name group is a grammatical name. */
  lemma NameGroup(s: string, i: nat, j: nat)
    requires i + 1 < j <= |s| && NameAt(s, i, j)
    ensures |s[i + 1..j]| >= 1 && IsKind(s[i + 1..j][0]) && AllDigits(s[i + 1..j][1..])
  {
    assert s[i + 1..j][1..] == s[i + 2..j];
  }

  /** A placeholder without a range, read off `s`. */
  lemma PlainToken(s: string, i: nat, j: nat)
    requires i + 1 < j < |s| && s[i] == '{' && NameAt(s, i, j) && s[j] == '}'
    ensures WellFormed(Match(s[i..j + 1], s[i + 1..j], "", "")) && OccursAt(s, s[i..j + 1], i)
  {
    NameGroup(s, i, j);
    Split(s, i, j, j + 1);
    Uncons(s, i, j);
    assert s[j..j + 1] == "}";
  }

  /** A placeholder with a range, read off `s`. */
  lemma RangedToken(s: string, i: nat, j: nat, a: nat, b: nat)
    requires i + 1 < j && j + 1 < a && a + 1 < b < |s|
    requires s[i] == '{' && NameAt(s, i, j) && s[j] == ':' && s[a] == ':' && s[b] == '}'
    requires AllDigits(s[j + 1..a]) && AllDigits(s[a + 1..b])
    ensures WellFormed(Match(s[i..b + 1], s[i + 1..j], s[j + 1..a], s[a + 1..b])) && OccursAt(s, s[i..b + 1], i)
  {
    NameGroup(s, i, j);
    var name, lo, hi := s[i + 1..j], s[j + 1..a], s[a + 1..b];
    RangedText(s, i, j, a, b);
    assert TokenText(name, lo, hi) == "{" + name + (":" + lo + ":" + hi) + "}";
  }

  /** The text of a ranged placeholder, piece by piece. */
  lemma RangedText(s: string, i: nat, j: nat, a: nat, b: nat)
    requires i < j < a < b < |s| && s[i] == '{' && s[j] == ':' && s[a] == ':' && s[b] == '}'
    ensures s[i..b + 1] == "{" + s[i + 1..j] + (":" + s[j + 1..a] + ":" + s[a + 1..b]) + "}"
  {
    var name, lo, hi := s[i + 1..j], s[j + 1..a], s[a + 1..b];
    Piece(s, a, b, b + 1);
    assert s[b..b + 1] == "}";
    Piece(s, j, a, b + 1);
    Piece(s, i, j, b + 1);
    Regroup("{", name, ":", lo, ":", hi, "}");
  }

  /** A slice of `s` is its first character, the text up to `y`, and the rest. */
  lemma Piece(s: string, x: nat, y: nat, z: nat)
    requires x < y <= z <= |s|
    ensures s[x..z] == [s[x]] + s[x + 1..y] + s[y..z]
  {
  }

  /** The grouping of a ranged placeholder's text does not matter. */
  lemma Regroup(p: string, name: string, c: string, lo: string, d: string, hi: string, q: string)
    ensures p + name + (c + lo + (d + hi + q)) == p + name + (c + lo + d + hi) + q
  {
  }

  /** Everything MatchAt reports is a placeholder occurring at `i`. */
  lemma MatchAtSound(s: string, i: nat)
    requires i <= |s|
    ensures MatchAt(s, i).Some? ==> WellFormed(MatchAt(s, i).value) && OccursAt(s, MatchAt(s, i).value.token, i)
  {
    if i + 1 < |s| && s[i] == '{' && IsKind(s[i + 1]) {
      var j := DigitsEnd(s, i + 2);
      MatchAtName(s, i, j);
      AfterNameSound(s, i, j);
    }
  }

  /** MatchAtSound after the name group, which ends at `j`. */
  lemma AfterNameSound(s: string, i: nat, j: nat)
    requires i + 1 < |s| && s[i] == '{' && IsKind(s[i + 1]) && j == DigitsEnd(s, i + 2)
    ensures AfterName(s, i, j).Some? ==> WellFormed(AfterName(s, i, j).value) && OccursAt(s, AfterName(s, i, j).value.token, i)
  {
    DigitRun(s, i + 2);
    if j < |s| && s[j] == '}' {
      PlainSound(s, i, j);
    } else if j < |s| && s[j] == ':' {
      var a := DigitsEnd(s, j + 1);
      assert AfterName(s, i, j) == AfterLow(s, i, j, a);
      RangedSound(s, i, j, a);
    }
  }

  /** The plain half of AfterNameSound: a closing brace right after the name group. */
  lemma PlainSound(s: string, i: nat, j: nat)
    requires i + 1 < j < |s| && s[i] == '{' && s[j] == '}' && IsKind(s[i + 1]) && AllDigits(s[i + 2..j])
    ensures AfterName(s, i, j).Some? && WellFormed(AfterName(s, i, j).value) && OccursAt(s, AfterName(s, i, j).value.token, i)
  {
    assert AfterName(s, i, j) == Some(Match(s[i..j + 1], s[i + 1..j], "", ""));
    PlainToken(s, i, j);
  }

  /** The ranged half of MatchAtSound. */
  lemma RangedSound(s: string, i: nat, j: nat, a: nat)
    requires i + 1 < j < a <= |s| && a == DigitsEnd(s, j + 1)
    requires s[i] == '{' && NameAt(s, i, j) && s[j] == ':'
    ensures AfterLow(s, i, j, a).Some? ==>
      WellFormed(AfterLow(s, i, j, a).value) && OccursAt(s, AfterLow(s, i, j, a).value.token, i)
  {
    if j + 1 < a < |s| && s[a] == ':' {
      var b := DigitsEnd(s, a + 1);
      assert AfterLow(s, i, j, a) == AfterHigh(s, i, j, a, b);
      HighSound(s, i, j, a, b);
    }
  }

  /** The last step of RangedSound: a closing brace after the upper bound. */
  lemma HighSound(s: string, i: nat, j: nat, a: nat, b: nat)
    requires i + 1 < j && j + 1 < a < b <= |s| && s[a] == ':'
    requires s[i] == '{' && NameAt(s, i, j) && s[j] == ':'
    requires a == DigitsEnd(s, j + 1) && b == DigitsEnd(s, a + 1)
    ensures AfterHigh(s, i, j, a, b).Some? ==>
      WellFormed(AfterHigh(s, i, j, a, b).value) && OccursAt(s, AfterHigh(s, i, j, a, b).value.token, i)
  {
    if a + 1 < b < |s| && s[b] == '}' {
      assert AfterHigh(s, i, j, a, b) == Some(Match(s[i..b + 1], s[i + 1..j], s[j + 1..a], s[a + 1..b]));
      DigitRun(s, j + 1);
      DigitRun(s, a + 1);
      RangedToken(s, i, j, a, b);
    }
  }

  /** A run of digits from `p` that stops at the non-digit at `e` ends at `e`. */
  lemma {:induction false} DigitsEndAt(s: string, p: nat, e: nat)
    requires p <= e < |s| && !IsDigit(s[e])
    requires forall k :: p <= k < e ==> IsDigit(s[k])
    ensures DigitsEnd(s, p) == e
    decreases e - p
  {
    if p < e {
      DigitsEndAt(s, p + 1, e);
    }
  }

  /** Where `t` occurs at `i` and holds the digits `d` at `x`, `s` holds digits at the same places. */
  lemma DigitsOccur(s: string, t: string, i: nat, x: nat, d: string)
    requires OccursAt(s, t, i) && x + |d| <= |t| && t[x..x + |d|] == d && AllDigits(d)
    ensures forall k :: i + x <= k < i + x + |d| ==> IsDigit(s[k])
  {
    forall k | i + x <= k < i + x + |d| ensures IsDigit(s[k]) {
      CharAt(s, t, i, k - i);
      assert t[k - i] == d[k - i - x];
    }
  }

  /** Where `t` occurs at `i`, each slice of `t` is the matching slice of `s`. */
  lemma Within(s: string, t: string, i: nat, x: nat, y: nat, p: nat, q: nat)
    requires OccursAt(s, t, i) && x <= y <= |t| && p == i + x && q == i + y
    ensures s[p..q] == t[x..y]
  {
    forall k | 0 <= k < y - x ensures s[p..q][k] == t[x..y][k] {
      assert s[i + x + k] == s[i..i + |t|][x + k];
    }
  }

  /** The pieces of a placeholder without a range. */
  lemma PlainPieces(m: Match)
    requires WellFormed(m) && m.lo == []
    ensures var n := |m.name|; |m.token| == n + 2 && m.token[0] == '{' && m.token[1..n + 1] == m.name && m.token[n + 1] == '}'
  {
  }

  /** The pieces of a placeholder with a range. */
  lemma RangedPieces(m: Match)
    requires WellFormed(m) && m.lo != []
    ensures var n, l := |m.name|, |m.lo|;
      && |m.token| == n + l + |m.hi| + 4 && m.token[0] == '{' && m.token[1..n + 1] == m.name
      && m.token[n + 1] == ':' && m.token[n + 2..n + 2 + l] == m.lo && m.token[n + 2 + l] == ':'
      && m.token[n + 3 + l..|m.token| - 1] == m.hi && m.token[|m.token| - 1] == '}'
  {
    var n, l := |m.name|, |m.lo|;
    var t := m.token;
    assert t == "{" + m.name + (":" + m.lo + ":" + m.hi) + "}";
    assert t[1..n + 1] == m.name;
    assert t[n + 2..n + 2 + l] == m.lo;
    assert t[n + 3 + l..|t| - 1] == m.hi;
  }

  /** The layout of a ranged placeholder's text `t`: a name, a colon, digits, a colon, digits, a closing brace. */
  predicate Layout(t: string, name: string, lo: string, hi: string) {
    && |name| >= 1 && lo != [] && hi != [] && AllDigits(lo) && AllDigits(hi)
    && |t| == |name| + |lo| + |hi| + 4 && t[|name| + 1] == ':'
    && t[|name| + 2..|name| + 2 + |lo|] == lo && t[|name| + 2 + |lo|] == ':'
    && t[|name| + 3 + |lo|..|t| - 1] == hi && t[|t| - 1] == '}'
  }

  /** A ranged placeholder has its layout. */
  lemma RangedLayout(m: Match)
    requires WellFormed(m) && m.lo != []
    ensures Layout(m.token, m.name, m.lo, m.hi)
  {
    RangedPieces(m);
  }

  /** The name `name` of the placeholder text `t` is read off `s` at `i`, with the character after it. */
  predicate NameRead(s: string, i: nat, t: string, name: string)
    requires |name| + 1 < |t|
  {
    i + 1 + |name| < |s| && s[i + 1..i + 1 + |name|] == name && s[i + 1 + |name|] == t[|name| + 1]
  }

  /** The name group of a placeholder at `i` ends where its name does. */
  lemma NameEnd(s: string, i: nat, m: Match)
    requires WellFormed(m) && OccursAt(s, m.token, i)
    ensures DigitsEnd(s, i + 2) == i + 1 + |m.name| && |m.name| + 1 < |m.token| && NameRead(s, i, m.token, m.name)
    ensures s[i] == '{' && IsKind(s[i + 1])
  {
    NameShape(m);
    NameOccurs(s, i, m.token, m.name);
  }

  /** The text of a placeholder opens with a brace, then its name, then a character that is not a digit. */
  lemma NameShape(m: Match)
    requires WellFormed(m)
    ensures |m.name| + 1 < |m.token| && m.token[0] == '{' && m.token[1..|m.name| + 1] == m.name
    ensures |m.name| >= 1 && IsKind(m.name[0]) && AllDigits(m.name[1..]) && !IsDigit(m.token[|m.name| + 1])
  {
    if m.lo == [] { PlainPieces(m); } else { RangedPieces(m); }
  }

  /** NameEnd for a text `t` opening with a brace and the name `name`, occurring at `i`. */
  lemma NameOccurs(s: string, i: nat, t: string, name: string)
    requires OccursAt(s, t, i) && |name| + 1 < |t| && t[0] == '{' && t[1..|name| + 1] == name
    requires |name| >= 1 && IsKind(name[0]) && AllDigits(name[1..]) && !IsDigit(t[|name| + 1])
    ensures DigitsEnd(s, i + 2) == i + 1 + |name| && NameRead(s, i, t, name)
    ensures s[i] == '{' && IsKind(s[i + 1])
  {
    var n := |name|;
    Within(s, t, i, 1, n + 1, i + 1, i + 1 + n);
    assert t[2..n + 1] == name[1..];
    CharAt(s, t, i, 0);
    CharAt(s, t, i, 1);
    CharAt(s, t, i, n + 1);
    DigitsOccur(s, t, i, 2, name[1..]);
    DigitsEndAt(s, i + 2, i + 1 + n);
  }

  /** The matcher finds every grammatical placeholder: with MatchAtSound, a placeholder starts at `i` exactly when MatchAt reports it. */
  lemma MatchAtFinds(s: string, i: nat, m: Match)
    requires WellFormed(m) && OccursAt(s, m.token, i)
    ensures MatchAt(s, i) == Some(m)
  {
    if m.lo == [] {
      PlainFinds(s, i, m);
    } else {
      NameEnd(s, i, m);
      RangedLayout(m);
      RangedFinds(s, i, m);
    }
  }

  /** MatchAtFinds for a placeholder with a range, from its layout and its name group. */
  lemma RangedFinds(s: string, i: nat, m: Match)
    requires OccursAt(s, m.token, i) && Layout(m.token, m.name, m.lo, m.hi)
    requires DigitsEnd(s, i + 2) == i + 1 + |m.name| && |m.name| + 1 < |m.token| && NameRead(s, i, m.token, m.name)
    requires s[i] == '{' && IsKind(s[i + 1])
    ensures MatchAt(s, i) == Some(m)
  {
    MatchAtName(s, i, i + 1 + |m.name|);
    RangedRead(s, i, m.token, m.name, m.lo, m.hi, m);
  }

  /** Where an opening brace and a kind letter start a name group ending at `j`, MatchAt reads on after it. */
  lemma MatchAtName(s: string, i: nat, j: nat)
    requires i + 1 < |s| && s[i] == '{' && IsKind(s[i + 1]) && DigitsEnd(s, i + 2) == j
    ensures MatchAt(s, i) == AfterName(s, i, j)
  {
  }

  /** AfterName reads back a placeholder without a range. */
  lemma PlainFinds(s: string, i: nat, m: Match)
    requires WellFormed(m) && OccursAt(s, m.token, i) && m.lo == []
    ensures MatchAt(s, i) == Some(m)
  {
    var j := i + 1 + |m.name|;
    NameEnd(s, i, m);
    MatchAtName(s, i, j);
    PlainPieces(m);
    assert s[i..j + 1] == m.token;
    assert AfterName(s, i, j) == Some(Match(s[i..j + 1], s[i + 1..j], "", ""));
  }

  /** AfterName reads back the pieces of a ranged placeholder at `i`. */
  lemma RangedRead(s: string, i: nat, t: string, name: string, lo: string, hi: string, m: Match)
    requires m == Match(t, name, lo, hi) && Layout(t, name, lo, hi)
    requires OccursAt(s, t, i) && NameRead(s, i, t, name)
    ensures AfterName(s, i, i + 1 + |name|) == Some(m)
  {
    var j := i + 1 + |name|;
    var a := j + 1 + |lo|;
    var b := i + |t| - 1;
    LowRead(s, i, t, name, lo, hi, j, a);
    HighRead(s, i, t, name, lo, hi, a, b);
    AfterNameRanged(s, i, j, a, b, t, name, lo, hi);
  }

  /** The lower bound of a ranged placeholder at `i` is read off `s` up to the colon at `a`. */
  lemma LowRead(s: string, i: nat, t: string, name: string, lo: string, hi: string, j: nat, a: nat)
    requires Layout(t, name, lo, hi) && OccursAt(s, t, i)
    requires j == i + 1 + |name| && a == j + 1 + |lo|
    ensures a < |s| && DigitsEnd(s, j + 1) == a && s[a] == ':' && s[j + 1..a] == lo
  {
    DigitsThrough(s, t, i, |name| + 2, lo, |name| + 2 + |lo|, j + 1, a);
  }

  /** The upper bound of a ranged placeholder at `i` is read off `s` from the colon at `a` up to the brace at `b`. */
  lemma HighRead(s: string, i: nat, t: string, name: string, lo: string, hi: string, a: nat, b: nat)
    requires Layout(t, name, lo, hi) && OccursAt(s, t, i)
    requires a == i + 2 + |name| + |lo| && b == i + |t| - 1
    ensures b < |s| && DigitsEnd(s, a + 1) == b && s[b] == '}' && s[a + 1..b] == hi
  {
    DigitsThrough(s, t, i, |name| + 3 + |lo|, hi, |t| - 1, a + 1, b);
  }

  /** Where `t` occurs at `i` and holds the digits `d` at `x` followed by a non-digit, the run of digits of `s` from `p` (that is, `i + x`) ends at `e`. */
  lemma DigitsThrough(s: string, t: string, i: nat, x: nat, d: string, c: nat, p: nat, e: nat)
    requires OccursAt(s, t, i) && c == x + |d| < |t| && t[x..x + |d|] == d && AllDigits(d) && !IsDigit(t[c])
    requires p == i + x && e == p + |d|
    ensures e < |s| && DigitsEnd(s, p) == e && s[e] == t[c] && s[p..e] == d
  {
    Within(s, t, i, x, x + |d|, p, e);
    DigitsOccur(s, t, i, x, d);
    CharAt(s, t, i, c);
    DigitsEndAt(s, p, e);
  }

  /** Where `t` occurs at `i`, each character of `t` is the matching character of `s`. */
  lemma CharAt(s: string, t: string, i: nat, k: nat)
    requires OccursAt(s, t, i) && k < |t|
    ensures s[i + k] == t[k]
  {
    assert s[i..i + |t|][k] == s[i + k];
  }

  /** How AfterName reads a ranged placeholder `t` whose pieces end at `j`, `a` and `b`. */
  lemma AfterNameRanged(s: string, i: nat, j: nat, a: nat, b: nat, t: string, name: string, lo: string, hi: string)
    requires i + 1 < j && j + 1 < a && a + 1 < b < |s|
    requires s[j] == ':' && s[a] == ':' && s[b] == '}'
    requires DigitsEnd(s, j + 1) == a && DigitsEnd(s, a + 1) == b
    requires OccursAt(s, t, i) && b + 1 == i + |t|
    requires s[i + 1..j] == name && s[j + 1..a] == lo && s[a + 1..b] == hi
    ensures AfterName(s, i, j) == Some(Match(t, name, lo, hi))
  {
    assert AfterLow(s, i, j, a) == AfterHigh(s, i, j, a, b);
    assert s[i..b + 1] == t;
  }

  /** A placeholder's text determines its name and range. */
  lemma TokenDetermines(m1: Match, m2: Match)
    requires WellFormed(m1) && WellFormed(m2) && m1.token == m2.token
    ensures m1 == m2
  {
    MatchAtFinds(m1.token, 0, m1);
    MatchAtFinds(m1.token, 0, m2);
  }

  /** Some placeholder occurs in `s`. */
  ghost predicate HasToken(s: string) {
    exists m: Match, i: nat :: WellFormed(m) && OccursAt(s, m.token, i)
  }

  /** FindAllSubmatch from index `i`: the leftmost placeholder, then the search resumes after it. */
  function FindAll(s: string, i: nat): seq<Match>
    requires i <= |s|
    decreases |s| - i
  {
    MatchAtAdvance(s, i);
    if i == |s| then []
    else match MatchAt(s, i)
      case Some(m) => [m] + FindAll(s, i + |m.token|)
      case None => FindAll(s, i + 1)
  }

  /** The search from `i` finds nothing exactly when no placeholder starts at or after `i`. */
  lemma {:induction false} FindAllEmpty(s: string, i: nat)
    requires i <= |s|
    ensures FindAll(s, i) == [] <==> forall j :: i <= j <= |s| ==> MatchAt(s, j) == None
    decreases |s| - i
  {
    if i < |s| {
      FindAllEmpty(s, i + 1);
    } else {
      assert MatchAt(s, i) == None;
    }
  }

  /** A text yields no matches exactly when no placeholder occurs in it. */
  lemma FindAllNone(s: string)
    ensures FindAll(s, 0) == [] <==> !HasToken(s)
  {
    FindAllEmpty(s, 0);
    forall j | 0 <= j <= |s| {
      MatchAtSound(s, j);
    }
    if HasToken(s) {
      var m: Match, i: nat :| WellFormed(m) && OccursAt(s, m.token, i);
      MatchAtFinds(s, i, m);
    }
  }

  /** Every match found from `i` is what MatchAt reports at some index at or after `i`. */
  lemma {:induction false} FindAllAt(s: string, i: nat, k: nat) returns (j: nat)
    requires i <= |s| && k < |FindAll(s, i)|
    ensures i <= j <= |s| && MatchAt(s, j) == Some(FindAll(s, i)[k])
    decreases |s| - i, 1
  {
    if i == |s| {
      FindAllEnd(s);
    } else if MatchAt(s, i).Some? {
      j := FindAllAtMatch(s, i, k, MatchAt(s, i).value);
    } else {
      FindAllSkip(s, i);
      j := FindAllAt(s, i + 1, k);
    }
  }

  /** FindAllAt where a placeholder `m` starts at `i`. */
  lemma {:induction false} FindAllAtMatch(s: string, i: nat, k: nat, m: Match) returns (j: nat)
    requires i < |s| && MatchAt(s, i) == Some(m) && k < |FindAll(s, i)|
    ensures i <= j <= |s| && MatchAt(s, j) == Some(FindAll(s, i)[k])
    decreases |s| - i, 0
  {
    FindAllNext(s, i, k, m);
    var found := FindAll(s, i)[k];
    if k == 0 {
      j := i;
      assert found == m;
    } else {
      var t := i + |m.token|;
      assert found == FindAll(s, t)[k - 1];
      j := FindAllAt(s, t, k - 1);
    }
  }

  /** The `k`-th match found from `i`, where MatchAt reports `m`: `m` itself, or a match found after it. */
  lemma FindAllNext(s: string, i: nat, k: nat, m: Match)
    requires i < |s| && MatchAt(s, i) == Some(m) && k < |FindAll(s, i)|
    ensures i < i + |m.token| <= |s|
    ensures k == 0 ==> FindAll(s, i)[k] == m
    ensures k > 0 ==> k - 1 < |FindAll(s, i + |m.token|)| && FindAll(s, i)[k] == FindAll(s, i + |m.token|)[k - 1]
  {
    MatchAdvance(s, i, m);
    FindAllTake(s, i, m);
    if k > 0 {
      FindAllRest(s, i, m, k);
    }
  }

  /** The search from the end finds nothing. */
  lemma FindAllEnd(s: string)
    ensures FindAll(s, |s|) == []
  {
  }

  /** Where MatchAt reports `m` at `i`, the search from `i` yields `m` and resumes after it. */
  lemma FindAllTake(s: string, i: nat, m: Match)
    requires i < |s| && MatchAt(s, i) == Some(m) && i + |m.token| <= |s|
    ensures FindAll(s, i) == [m] + FindAll(s, i + |m.token|)
  {
  }

  /** The matches found after the first one are the search resumed after it. */
  lemma FindAllRest(s: string, i: nat, m: Match, k: nat)
    requires i < |s| && i + |m.token| <= |s| && FindAll(s, i) == [m] + FindAll(s, i + |m.token|)
    requires 0 < k < |FindAll(s, i)|
    ensures k - 1 < |FindAll(s, i + |m.token|)| && FindAll(s, i)[k] == FindAll(s, i + |m.token|)[k - 1]
  {
  }

  /** Where MatchAt reports nothing at `i`, the search from `i` is the search from `i + 1`. */
  lemma FindAllSkip(s: string, i: nat)
    requires i < |s| && MatchAt(s, i) == None
    ensures FindAll(s, i) == FindAll(s, i + 1)
  {
  }

  /** A placeholder `m` MatchAt reports at `i` is not empty and ends within `s`. */
  lemma MatchAdvance(s: string, i: nat, m: Match)
    requires i <= |s| && MatchAt(s, i) == Some(m)
    ensures 0 < |m.token| && i + |m.token| <= |s|
  {
    MatchAtAdvance(s, i);
  }

  /** A placeholder MatchAt reports at `i` is not empty and ends within `s`. */
  lemma MatchAtAdvance(s: string, i: nat)
    requires i <= |s|
    ensures MatchAt(s, i).Some? ==> 0 < |MatchAt(s, i).value.token| && i + |MatchAt(s, i).value.token| <= |s|
  {
    MatchAtSound(s, i);
  }

  /** Every match found from `i` is a placeholder occurring in `s` at or after `i`. */
  lemma FindAllSound(s: string, i: nat, k: nat)
    requires i <= |s| && k < |FindAll(s, i)|
    ensures WellFormed(FindAll(s, i)[k])
    ensures exists j :: i <= j && OccursAt(s, FindAll(s, i)[k].token, j)
  {
    var j := FindAllAt(s, i, k);
    MatchAtSound(s, j);
  }

  /** Every match found is a placeholder. */
  lemma FindAllWellFormed(s: string)
    ensures forall k :: 0 <= k < |FindAll(s, 0)| ==> WellFormed(FindAll(s, 0)[k])
  {
    forall k | 0 <= k < |FindAll(s, 0)| ensures WellFormed(FindAll(s, 0)[k]) {
      FindAllSound(s, 0, k);
    }
  }
}
