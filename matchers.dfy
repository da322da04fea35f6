/**
 * The two input patterns of cmd/root.go and `parseInputWithRegexp`, matched
 * by hand. Go's regexp package finds the leftmost match and, among the ways
 * to match there, the one its greedy quantifiers prefer: each quantifier,
 * from left to right, takes as much as still lets the rest match. `.`
 * matches every character but a newline, `\w` is `[0-9A-Za-z_]` and `\s` is
 * `[\t\n\f\r ]`. Each matcher is proved to return that preferred match of a
 * declarative description of the pattern.
 */
module Matchers {
  import opened Wrappers
  import opened Text

  predicate IsWordChar(c: char) {
    '0' <= c <= '9' || 'A' <= c <= 'Z' || 'a' <= c <= 'z' || c == '_'
  }

  /** The class `[\w-]`. */
  predicate IsNameChar(c: char) {
    IsWordChar(c) || c == '-'
  }

  /** The class `\s`: tab, newline, form feed, carriage return and space. */
  predicate IsSpace(c: char) {
    c == '\t' || c == '\n' || c as int == 12 || c == '\r' || c == ' '
  }

  /** The end of the run of class characters that starts at `k`. */
  function Span(s: string, k: nat, inClass: char -> bool): (e: nat)
    requires k <= |s|
    ensures k <= e <= |s|
    ensures forall i :: k <= i < e ==> inClass(s[i])
    ensures e == |s| || !inClass(s[e])
    decreases |s| - k
  {
    if k < |s| && inClass(s[k]) then Span(s, k + 1, inClass) else k
  }

  /** A run of class characters ended by another character, or by the end, is what Span finds. */
  lemma {:induction false} SpanOver(s: string, k: nat, m: nat, inClass: char -> bool)
    requires k <= m <= |s|
    requires forall i :: k <= i < m ==> inClass(s[i])
    requires m == |s| || !inClass(s[m])
    ensures Span(s, k, inClass) == m
    decreases m - k
  {
    if k < m {
      SpanOver(s, k + 1, m, inClass);
    }
  }

  /** A run of class characters from `k` to `m` lies within the one Span finds. */
  lemma {:induction false} SpanCovers(s: string, k: nat, m: nat, inClass: char -> bool)
    requires k <= m <= |s|
    requires forall i :: k <= i < m ==> inClass(s[i])
    ensures m <= Span(s, k, inClass)
    decreases m - k
  {
    if k < m {
      SpanCovers(s, k + 1, m, inClass);
    }
  }

  // ---------------------------------------------------------------- `^([\w-]+):\s*(.+)`

  /**
   * One way for headerRegexp to match `s`: group 1 is `s[..n]`, `:` follows,
   * `\s*` spans `s[n + 1..j]` and `(.+)` starts at `j` with a character that
   * is not a newline.
   */
  ghost predicate HeaderMatchesAt(s: string, n: int, j: int) {
    && 1 <= n < j < |s|
    && (forall i :: 0 <= i < n ==> IsNameChar(s[i]))
    && s[n] == ':'
    && (forall i :: n < i < j ==> IsSpace(s[i]))
    && s[j] != '\n'
  }

  /** The match the greedy quantifiers prefer: no other match has a longer name or a longer run of spaces. */
  ghost predicate HeaderChosen(s: string, n: int, j: int) {
    && HeaderMatchesAt(s, n, j)
    && forall n', j' :: HeaderMatchesAt(s, n', j') ==> n' == n && j' <= j
  }

  /** The last position from `j` down to `p` where `(.+)` can start: a character that is not a newline. */
  function LastValueStart(s: string, p: nat, j: nat): (r: Option<nat>)
    requires p <= j <= |s|
    ensures r.Some? ==> p <= r.value <= j && r.value < |s| && s[r.value] != '\n'
    ensures r.Some? ==> forall i :: r.value < i <= j ==> i == |s| || s[i] == '\n'
    ensures r.None? ==> forall i :: p <= i <= j ==> i == |s| || s[i] == '\n'
    decreases j - p
  {
    if j < |s| && s[j] != '\n' then Some(j)
    else if j == p then None
    else LastValueStart(s, p, j - 1)
  }

  /** FindStringSubmatch with headerRegexp: the whole match, the name and the value, or nothing. */
  function HeaderMatch(s: string): Option<seq<string>> {
    var n := Span(s, 0, IsNameChar);
    if n == 0 || n == |s| || s[n] != ':' then None
    else
      var q := Span(s, n + 1, IsSpace);
      match LastValueStart(s, n + 1, q)
      case None => None
      case Some(j) =>
        var e := LineEnd(s, j);
        Some([s[..e], s[..n], s[j..e]])
  }

  /**
   * headerRegexp matches exactly when some way to match exists, and then
   * yields the preferred one: the name is the whole leading run of name
   * characters, the value starts after the longest run of spaces that still
   * leaves it a character, and runs to the end of its line.
   */
  lemma HeaderMatchSpec(s: string)
    ensures HeaderMatch(s).None? <==> forall n, j :: !HeaderMatchesAt(s, n, j)
    ensures HeaderMatch(s).Some? ==> exists n, j ::
      && HeaderChosen(s, n, j)
      && HeaderMatch(s).value == [s[..LineEnd(s, j)], s[..n], s[j..LineEnd(s, j)]]
  {
    var n := Span(s, 0, IsNameChar);
    forall n', j' | HeaderMatchesAt(s, n', j') ensures n' == n {
      SpanOver(s, 0, n', IsNameChar);
    }
    if n != 0 && n != |s| && s[n] == ':' {
      var q := Span(s, n + 1, IsSpace);
      forall n', j' | HeaderMatchesAt(s, n', j') ensures j' <= q {
        SpanCovers(s, n + 1, j', IsSpace);
      }
      var r := LastValueStart(s, n + 1, q);
      if r.Some? {
        var j := r.value;
        assert HeaderMatchesAt(s, n, j);
        assert HeaderChosen(s, n, j);
      }
    }
  }

  /** A name, a colon, spaces and a value that starts with a non-space and holds no newline: Go splits it there. */
  lemma HeaderMatchOf(name: string, ws: string, value: string)
    requires name != [] && forall i :: 0 <= i < |name| ==> IsNameChar(name[i])
    requires forall i :: 0 <= i < |ws| ==> IsSpace(ws[i])
    requires value != [] && !IsSpace(value[0]) && '\n' !in value
    ensures HeaderMatch(name + ":" + ws + value) == Some([name + ":" + ws + value, name, value])
  {
    var s := name + ":" + ws + value;
    HeaderSpans(name, ws, value);
    HeaderLineEnd(name + ":" + ws, value);
    assert s[..|s|] == s;
  }

  /** The name run of `name:ws value` ends at the colon, and the space run at the value. */
  lemma HeaderSpans(name: string, ws: string, value: string)
    requires name != [] && forall i :: 0 <= i < |name| ==> IsNameChar(name[i])
    requires forall i :: 0 <= i < |ws| ==> IsSpace(ws[i])
    requires value != [] && !IsSpace(value[0])
    ensures var s, n, q := name + ":" + ws + value, |name|, |name| + 1 + |ws|;
      && s[..n] == name && s[q..] == value && s[n] == ':'
      && Span(s, 0, IsNameChar) == n && Span(s, n + 1, IsSpace) == q
  {
    var s := name + ":" + ws + value;
    var n, q := |name|, |name| + 1 + |ws|;
    assert s[..n] == name && s[q..] == value;
    assert !IsNameChar(s[n]);
    SpanOver(s, 0, n, IsNameChar);
    forall i | n + 1 <= i < q ensures IsSpace(s[i]) {
      assert s[i] == ws[i - n - 1];
    }
    SpanOver(s, n + 1, q, IsSpace);
  }

  /** A value without a newline runs to the end of the text. */
  lemma HeaderLineEnd(front: string, value: string)
    requires '\n' !in value
    ensures LineEnd(front + value, |front|) == |front + value|
  {
    var s := front + value;
    var q := |front|;
    forall i | q <= i < |s| ensures s[i] != '\n' {
      assert s[i] == value[i - q];
    }
    LineEndNone(s, q);
  }

  /** A leading run of name characters followed by neither a name character nor `:` is rejected. */
  lemma HeaderNoMatchOf(name: string, rest: string)
    requires forall i :: 0 <= i < |name| ==> IsNameChar(name[i])
    requires rest != [] && !IsNameChar(rest[0]) && rest[0] != ':'
    ensures HeaderMatch(name + rest) == None
  {
    var s := name + rest;
    assert s[|name|] == rest[0];
    SpanOver(s, 0, |name|, IsNameChar);
  }

  // ---------------------------------------------------------------- `^(.+):([^\s].+)`

  /**
   * One way for authRegexp to match `s`: group 1 is `s[..c]`, `:` follows,
   * then a non-space and at least one more character, all on the first line.
   */
  predicate AuthMatchesAt(s: string, c: int) {
    && 1 <= c && c + 2 < LineEnd(s, 0)
    && s[c] == ':' && !IsSpace(s[c + 1])
  }

  /** The match the greedy first group prefers: the last colon that can split. */
  ghost predicate AuthChosen(s: string, c: int) {
    AuthMatchesAt(s, c) && forall c' :: AuthMatchesAt(s, c') ==> c' <= c
  }

  /** The last split from `c` down to 1. */
  function LastSplit(s: string, c: int): (r: Option<nat>)
    ensures r.Some? ==> 1 <= r.value <= c && AuthMatchesAt(s, r.value)
    ensures r.Some? ==> forall c' :: r.value < c' <= c ==> !AuthMatchesAt(s, c')
    ensures r.None? ==> forall c' :: c' <= c ==> !AuthMatchesAt(s, c')
    decreases c
  {
    if c < 1 then None
    else if AuthMatchesAt(s, c) then Some(c)
    else LastSplit(s, c - 1)
  }

  /** FindStringSubmatch with authRegexp: the whole first line, the user and the password, or nothing. */
  function AuthMatch(s: string): Option<seq<string>> {
    var l := LineEnd(s, 0);
    match LastSplit(s, l - 3)
    case None => None
    case Some(c) => Some([s[..l], s[..c], s[c + 1..l]])
  }

  /**
   * authRegexp matches exactly when some colon can split, and then splits
   * at the last such colon; the password runs to the end of the first line.
   */
  lemma AuthMatchSpec(s: string)
    ensures AuthMatch(s).None? <==> forall c :: !AuthMatchesAt(s, c)
    ensures AuthMatch(s).Some? ==> exists c ::
      && AuthChosen(s, c)
      && AuthMatch(s).value == [s[..LineEnd(s, 0)], s[..c], s[c + 1..LineEnd(s, 0)]]
  {
    var l: int := LineEnd(s, 0);
    var r := LastSplit(s, l - 3);
    if r.Some? {
      assert AuthChosen(s, r.value);
    }
  }

  /** The user and the password around the split give back the whole match. */
  lemma AuthMatchJoin(s: string)
    requires AuthMatch(s).Some?
    ensures var m := AuthMatch(s).value; |m| == 3 && m[0] == m[1] + ":" + m[2] && |m[2]| >= 2
  {
    var l := LineEnd(s, 0);
    var c := LastSplit(s, l - 3).value;
    assert s[..l] == s[..c] + ":" + s[c + 1..l];
  }

  /** A user without a newline, a colon, and a password of two or more characters without colon or newline that starts with a non-space. */
  lemma AuthMatchOf(user: string, pass: string)
    requires user != [] && '\n' !in user
    requires |pass| >= 2 && !IsSpace(pass[0]) && ':' !in pass && '\n' !in pass
    ensures AuthMatch(user + ":" + pass) == Some([user + ":" + pass, user, pass])
  {
    var s := user + ":" + pass;
    var c := |user|;
    forall i | 0 <= i < |s| ensures s[i] != '\n' {
      if i < c {
        assert s[i] == user[i];
      } else if i > c {
        assert s[i] == pass[i - c - 1];
      }
    }
    LineEndNone(s, 0);
    assert AuthMatchesAt(s, c);
    forall c' | c < c' < |s| ensures s[c'] != ':' {
      assert s[c'] == pass[c' - c - 1];
    }
    assert s[..c] == user && s[c + 1..] == pass && s[..|s|] == s;
  }

  /** When the only colon is followed by a space, authRegexp does not match. */
  lemma AuthNoMatchOf(user: string, rest: string)
    requires ':' !in user && ':' !in rest && rest != [] && IsSpace(rest[0])
    ensures AuthMatch(user + ":" + rest) == None
  {
    var s := user + ":" + rest;
    forall c | 0 <= c < |s| && c != |user| ensures s[c] != ':' {
      if c < |user| {
        assert s[c] == user[c];
      } else {
        assert s[c] == rest[c - |user| - 1];
      }
    }
    assert s[|user| + 1] == rest[0];
    AuthMatchSpec(s);
  }

  // ---------------------------------------------------------------- parseInputWithRegexp

  datatype Pattern = HeaderPattern | AuthPattern

  function Match(p: Pattern, input: string): Option<seq<string>> {
    match p
    case HeaderPattern => HeaderMatch(input)
    case AuthPattern => AuthMatch(input)
  }

  /** parseInputWithRegexp: the submatches, or an error naming the input when there are none. */
  function ParseInputWithRegexp(input: string, p: Pattern): (r: Result<seq<string>>)
    ensures r.Ok? <==> Match(p, input).Some?
    ensures r.Ok? ==> r.value == Match(p, input).value && |r.value| == 3
    ensures r.Err? ==> r.msg == "could not parse the provided input; input = " + input
  {
    match Match(p, input)
    case None => Err("could not parse the provided input; input = " + input)
    case Some(m) => Ok(m)
  }

  /** The header line of the tests, `X-Something: !Y10K:;(He@poverflow?)`, splits into its name and its value. */
  lemma HeaderSample()
    ensures HeaderMatch("X-Something" + ":" + " " + "!Y10K:;(He@poverflow?)")
      == Some(["X-Something" + ":" + " " + "!Y10K:;(He@poverflow?)", "X-Something", "!Y10K:;(He@poverflow?)"])
  {
    HeaderMatchOf("X-Something", " ", "!Y10K:;(He@poverflow?)");
  }

  /** `X|oh|bad-input: badbadbad` matches neither pattern: the name stops at `|`, and its only colon is followed by a space. */
  lemma BadInputSample()
    ensures HeaderMatch("X" + "|oh|bad-input: badbadbad") == None
    ensures AuthMatch("X|oh|bad-input" + ":" + " badbadbad") == None
  {
    HeaderNoMatchOf("X", "|oh|bad-input: badbadbad");
    AuthNoMatchOf("X|oh|bad-input", " badbadbad");
  }

  /** `_coo-kie_:!!bigmonster@1969sid` splits at its colon. */
  lemma AuthSample()
    ensures AuthMatch("_coo-kie_" + ":" + "!!bigmonster@1969sid")
      == Some(["_coo-kie_" + ":" + "!!bigmonster@1969sid", "_coo-kie_", "!!bigmonster@1969sid"])
  {
    AuthMatchOf("_coo-kie_", "!!bigmonster@1969sid");
  }

  /** A user name with `+`, `$`, `*` and `{` is accepted: `plus+$*{:boom`. */
  lemma AuthMetaSample()
    ensures AuthMatch("plus+$*{" + ":" + "boom") == Some(["plus+$*{" + ":" + "boom", "plus+$*{", "boom"])
  {
    AuthMatchOf("plus+$*{", "boom");
  }
}
