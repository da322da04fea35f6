/**
 * The `-H` loop that both work builders share: each header line is matched
 * with headerRegexp and its value set under its name, in order; the first
 * line that does not match ends the loop with the error of
 * parseInputWithRegexp.
 */
module HeaderLines {
  import opened Wrappers
  import opened Matchers
  import opened HttpHeader

  /** The headers after setting every line, or the error of the first line that does not match. */
  function ApplyHeaders(h: Header, lines: seq<string>): Result<Header>
    decreases |lines|
  {
    if lines == [] then Ok(h)
    else
      var h' :- ApplyHeaders(h, lines[..|lines| - 1]);
      var m :- ParseInputWithRegexp(lines[|lines| - 1], HeaderPattern);
      Ok(Set(h', m[1], m[2]))
  }

  /** The `-H` loop of both builders: each line matched and set in order, up to the first that does not match. */
  method SetHeaderLines(h: Header, lines: seq<string>) returns (r: Result<Header>)
    ensures r == ApplyHeaders(h, lines)
  {
    var header := h;
    for k := 0 to |lines|
      invariant ApplyHeaders(h, lines[..k]) == Ok(header)
    {
      assert lines[..k + 1][..k] == lines[..k];
      var m := ParseInputWithRegexp(lines[k], HeaderPattern);
      if m.Err? {
        ErrorStays(h, lines, k + 1);
        return Err(m.msg);
      }
      header := Set(header, m.value[1], m.value[2]);
    }
    assert lines[..|lines|] == lines;
    return Ok(header);
  }

  /** The value of the last line that names `key`, if any line does. */
  function LastValue(lines: seq<string>, key: string): Option<string>
    decreases |lines|
  {
    if lines == [] then None
    else
      var m := HeaderMatch(lines[|lines| - 1]);
      if m.Some? && m.value[1] == key then Some(m.value[2]) else LastValue(lines[..|lines| - 1], key)
  }

  /** The error parseInputWithRegexp gives for an input that does not match. */
  function ParseError(input: string): string {
    "could not parse the provided input; input = " + input
  }

  /** Line `i` is the first that headerRegexp rejects. */
  ghost predicate FirstBad(lines: seq<string>, i: int) {
    && 0 <= i < |lines| && HeaderMatch(lines[i]).None?
    && forall j :: 0 <= j < i ==> HeaderMatch(lines[j]).Some?
  }

  /** Once a prefix fails, the whole loop fails with the same error. */
  lemma {:induction false} ErrorStays(h: Header, lines: seq<string>, k: nat)
    requires k <= |lines| && ApplyHeaders(h, lines[..k]).Err?
    ensures ApplyHeaders(h, lines) == ApplyHeaders(h, lines[..k])
    decreases |lines| - k
  {
    if k < |lines| {
      var front := lines[..|lines| - 1];
      assert front[..k] == lines[..k];
      ErrorStays(h, front, k);
    } else {
      assert lines[..k] == lines;
    }
  }

  /** The loop succeeds exactly when every line matches. */
  lemma {:induction false} ApplyHeadersOk(h: Header, lines: seq<string>)
    ensures ApplyHeaders(h, lines).Ok? <==> forall i :: 0 <= i < |lines| ==> HeaderMatch(lines[i]).Some?
    decreases |lines|
  {
    if lines != [] {
      var front := lines[..|lines| - 1];
      ApplyHeadersOk(h, front);
      AllMatchFront(lines, front);
    }
  }

  /** A failing loop's error names the first line that does not match. */
  lemma {:induction false} ApplyHeadersError(h: Header, lines: seq<string>)
    requires ApplyHeaders(h, lines).Err?
    ensures exists i :: FirstBad(lines, i) && ApplyHeaders(h, lines).msg == ParseError(lines[i])
    decreases |lines|
  {
    var front := lines[..|lines| - 1];
    if ApplyHeaders(h, front).Err? {
      ApplyHeadersError(h, front);
      var i :| FirstBad(front, i) && ApplyHeaders(h, front).msg == ParseError(front[i]);
      FirstBadFront(lines, i);
    } else {
      ApplyHeadersOk(h, front);
      FirstBadLast(lines, front);
    }
  }

  lemma FirstBadFront(lines: seq<string>, i: int)
    requires lines != [] && FirstBad(lines[..|lines| - 1], i)
    ensures FirstBad(lines, i) && lines[i] == lines[..|lines| - 1][i]
  {
    var front := lines[..|lines| - 1];
    forall j | 0 <= j <= i ensures lines[j] == front[j] {
    }
  }

  lemma FirstBadLast(lines: seq<string>, front: seq<string>)
    requires lines != [] && front == lines[..|lines| - 1] && HeaderMatch(lines[|lines| - 1]).None?
    requires forall j :: 0 <= j < |front| ==> HeaderMatch(front[j]).Some?
    ensures FirstBad(lines, |lines| - 1)
  {
    forall j | 0 <= j < |front| ensures lines[j] == front[j] {
    }
  }

  /** Every line matches exactly when every line of the front and the last line match. */
  lemma AllMatchFront(lines: seq<string>, front: seq<string>)
    requires lines != [] && front == lines[..|lines| - 1]
    ensures (forall i :: 0 <= i < |lines| ==> HeaderMatch(lines[i]).Some?) <==>
      (forall i :: 0 <= i < |front| ==> HeaderMatch(front[i]).Some?) && HeaderMatch(lines[|lines| - 1]).Some?
  {
    assert forall i :: 0 <= i < |front| ==> front[i] == lines[i];
  }

  /**
   * When every line matches, a name that some line sets holds the value of
   * the last such line, alone; every other name keeps what it had.
   */
  lemma {:induction false} ApplyHeadersLast(h: Header, lines: seq<string>, key: string)
    requires ApplyHeaders(h, lines).Ok?
    ensures var h' := ApplyHeaders(h, lines).value;
      match LastValue(lines, key)
      case Some(v) => key in h' && h'[key] == [v]
      case None => (key in h' <==> key in h) && (key in h ==> h'[key] == h[key])
    decreases |lines|
  {
    if lines != [] {
      ApplyHeadersLast(h, lines[..|lines| - 1], key);
    }
  }

  /** A value a line sets is never empty: `(.+)` takes at least one character. */
  lemma {:induction false} LastValueNonEmpty(lines: seq<string>, key: string)
    ensures LastValue(lines, key).Some? ==> LastValue(lines, key).value != ""
    decreases |lines|
  {
    if lines != [] {
      var line := lines[|lines| - 1];
      HeaderMatchSpec(line);
      LastValueNonEmpty(lines[..|lines| - 1], key);
    }
  }
}
