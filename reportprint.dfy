/**
 * The output side of requester/print.go: the choice of output template,
 * the text of the response-time histogram with its bars normalised to 40
 * characters, and the shape of the CSV output. The `%4.3f`/`%4.4f` float
 * formatting of latencies is a parameter `num` here.
 */
module ReportPrint {
  import opened Text
  import opened Tally
  import opened ReportTables
  import opened ReportModel
  import opened Stats

  // ------------------------------------------------------------ templates

  /** The templates a report can be printed with. */
  datatype Template = Summary | Csv | Custom(text: string)

  /** newTemplate: "" is the summary, "csv" the CSV layout, anything else the template text itself. */
  function NewTemplate(output: string): (t: Template)
    ensures t == Summary <==> output == ""
    ensures t == Csv <==> output == "csv"
    ensures t.Custom? <==> output != "" && output != "csv"
    ensures t.Custom? ==> t.text == output
  {
    if output == "" then Summary else if output == "csv" then Csv else Custom(output)
  }

  // ------------------------------------------------------------ histogram

  /** The bar character of requester/report.go, U+25A0. */
  const BarChar: char := '\U{25A0}'

  /** The largest bucket count, or 0 when there is no positive count. */
  function MaxCount(bs: seq<Bucket>): (m: int)
    ensures m >= 0
  {
    if bs == [] then 0
    else
      var m := MaxCount(bs[..|bs| - 1]);
      if bs[|bs| - 1].count > m then bs[|bs| - 1].count else m
  }

  /** MaxCount bounds every count and is one of them, unless it is 0. */
  lemma {:induction false} MaxCountIsMax(bs: seq<Bucket>)
    ensures forall i :: 0 <= i < |bs| ==> bs[i].count <= MaxCount(bs)
    ensures MaxCount(bs) == 0 || exists i :: 0 <= i < |bs| && bs[i].count == MaxCount(bs)
  {
    if bs != [] {
      var front := bs[..|bs| - 1];
      MaxCountIsMax(front);
      assert forall i :: 0 <= i < |front| ==> front[i] == bs[i];
    }
  }

  /** The bar length of a bucket: `count*40/max` rounded half up, 0 when `max` is 0. */
  function BarLen(count: int, max: int): nat
    requires count >= 0
  {
    if max > 0 then (count * 40 + max / 2) / max else 0
  }

  /** A bar is at most 40 long. */
  lemma BarLenAtMost40(count: int, max: int)
    requires 0 <= count <= max
    ensures BarLen(count, max) <= 40
  {
    if max > 0 {
      var a := count * 40 + max / 2;
      var q := a / max;
      assert q * max <= a;
      MulLe(count, max, 40);
      assert a < 41 * max;
      MulLe(41, q, max);
    }
  }

  /** The bar of the largest count is exactly 40 long. */
  lemma BarLenFull(max: int)
    requires max > 0
    ensures BarLen(max, max) == 40
  {
    var a := max * 40 + max / 2;
    assert 40 * max <= a < 41 * max;
    DivWithin(a, max, 40);
  }

  /** A bar is within one half of `count*40/max`: the quotient rounded half up. */
  lemma BarLenRounds(count: int, max: int)
    requires 0 <= count && max > 0
    ensures 80 * count - max <= 2 * (BarLen(count, max) * max) <= 80 * count + max
  {
    var a := count * 40 + max / 2;
    var q := a / max;
    assert q * max == a - a % max;
  }

  /** Bars are at most 40 long, the largest is exactly 40, and each is within one half of `count*40/max`. */
  lemma BarLenBounds(count: int, max: int)
    requires 0 <= count <= max
    ensures BarLen(count, max) <= 40
    ensures max > 0 && count == max ==> BarLen(count, max) == 40
    ensures max > 0 ==> 80 * count - max <= 2 * (BarLen(count, max) * max) <= 80 * count + max
    ensures max == 0 ==> BarLen(count, max) == 0
  {
    BarLenAtMost40(count, max);
    if max > 0 {
      BarLenRounds(count, max);
      if count == max {
        BarLenFull(max);
      }
    }
  }

  /** The histogram's bars: none is longer than 40, a bucket with the largest count is exactly 40, and all are empty when every count is 0. */
  lemma HistogramBars(bs: seq<Bucket>)
    requires forall i :: 0 <= i < |bs| ==> bs[i].count >= 0
    ensures forall i :: 0 <= i < |bs| ==> BarLen(bs[i].count, MaxCount(bs)) <= 40
    ensures forall i :: 0 <= i < |bs| && bs[i].count == MaxCount(bs) > 0 ==>
      BarLen(bs[i].count, MaxCount(bs)) == 40
    ensures (forall i :: 0 <= i < |bs| ==> bs[i].count == 0) ==>
      forall i :: 0 <= i < |bs| ==> BarLen(bs[i].count, MaxCount(bs)) == 0
  {
    MaxCountIsMax(bs);
    forall i | 0 <= i < |bs| {
      BarLenBounds(bs[i].count, MaxCount(bs));
    }
  }

  /** One histogram line: the mark, the count in brackets, then the bar. */
  function Line(b: Bucket, max: int, num: int -> string): string
    requires b.count >= 0
  {
    "  " + num(b.mark) + " [" + Itoa(b.count) + "]\t|" + Repeat(BarChar, BarLen(b.count, max)) + "\n"
  }

  /** The lines of the buckets, in bucket order. */
  function Lines(bs: seq<Bucket>, max: int, num: int -> string): string
    requires forall i :: 0 <= i < |bs| ==> bs[i].count >= 0
  {
    if bs == [] then [] else Lines(bs[..|bs| - 1], max, num) + Line(bs[|bs| - 1], max, num)
  }

  /** histogram: one pass for the largest count, a second writing one line per bucket. */
  method HistogramText(bs: seq<Bucket>, num: int -> string) returns (res: string)
    requires forall i :: 0 <= i < |bs| ==> bs[i].count >= 0
    ensures res == Lines(bs, MaxCount(bs), num)
  {
    var max := LargestCount(bs);
    res := [];
    var i := 0;
    while i < |bs|
      invariant 0 <= i <= |bs| && res == Lines(bs[..i], max, num)
    {
      assert bs[..i + 1][..i] == bs[..i];
      res := res + Line(bs[i], max, num);
      i := i + 1;
    }
    assert bs[..i] == bs;
  }

  /** The first pass of histogram: the largest count. */
  method LargestCount(bs: seq<Bucket>) returns (max: int)
    ensures max == MaxCount(bs)
  {
    max := 0;
    var i := 0;
    while i < |bs|
      invariant 0 <= i <= |bs| && max == MaxCount(bs[..i])
    {
      assert bs[..i + 1][..i] == bs[..i];
      if bs[i].count > max {
        max := bs[i].count;
      }
      i := i + 1;
    }
    assert bs[..i] == bs;
  }

  /** A formatter whose output never holds the character `c`. */
  ghost predicate Avoids(num: int -> string, c: char) {
    forall x :: c !in num(x)
  }

  lemma AvoidsAt(num: int -> string, c: char, x: int)
    requires Avoids(num, c)
    ensures Occ(num(x), c) == 0
  {
  }

  /** Decimal text holds no character other than digits and a leading minus. */
  lemma ItoaAvoids(i: int, c: char)
    requires !IsDigit(c) && c != '-'
    ensures Occ(Itoa(i), c) == 0
  {
    var s := Itoa(i);
    forall k | 0 <= k < |s| ensures s[k] != c {
      if i < 0 && k > 0 {
        assert s[k] == s[1..][k - 1];
      }
    }
  }

  /** Every histogram line ends in the only newline it holds. */
  lemma LineNewlines(b: Bucket, max: int, num: int -> string)
    requires b.count >= 0 && Avoids(num, '\n')
    ensures Occ(Line(b, max, num), '\n') == 1
  {
    var bar := Repeat(BarChar, BarLen(b.count, max));
    ItoaAvoids(b.count, '\n');
    assert '\n' !in num(b.mark);
    assert '\n' !in bar;
    OccAppend("  " + num(b.mark) + " [" + Itoa(b.count) + "]\t|" + bar, "\n", '\n');
    OccAppend("  " + num(b.mark) + " [" + Itoa(b.count) + "]\t|", bar, '\n');
    OccAppend("  " + num(b.mark) + " [" + Itoa(b.count), "]\t|", '\n');
    OccAppend("  " + num(b.mark) + " [", Itoa(b.count), '\n');
    OccAppend("  " + num(b.mark), " [", '\n');
    OccAppend("  ", num(b.mark), '\n');
  }

  /** The histogram text has exactly one line per bucket. */
  lemma {:induction false} LinesPerBucket(bs: seq<Bucket>, max: int, num: int -> string)
    requires forall i :: 0 <= i < |bs| ==> bs[i].count >= 0
    requires Avoids(num, '\n')
    ensures Occ(Lines(bs, max, num), '\n') == |bs|
  {
    if bs != [] {
      LinesPerBucket(bs[..|bs| - 1], max, num);
      LineNewlines(bs[|bs| - 1], max, num);
      OccAppend(Lines(bs[..|bs| - 1], max, num), Line(bs[|bs| - 1], max, num), '\n');
    }
  }
}
