/**
 * The CSV layout of requester/print.go: a header of eight column names,
 * then one row per stored latency with the eight per-result values. The
 * `%4.4f` float formatting is a parameter `num` here.
 */
module ReportCsv {
  import opened Text
  import opened Tally
  import opened ReportModel
  import opened ReportPrint

  /** The eight CSV columns, in order. */
  const CsvColumns: seq<string> := ["response-time", "DNS+dialup", "DNS", "Request-write",
    "Response-delay", "Response-read", "status-code", "offset"]

  /** The report's eight per-result sequences, in the reporter's grouping. */
  function Columns(r: Report): Stored {
    Stored(r.lats, r.connLats, r.dnsLats, r.reqLats, r.delayLats, r.resLats, r.statusCodes, r.offsets)
  }

  /** Each sequence has an entry for every latency, as the template's `index` needs. */
  predicate CsvReady(s: Stored) {
    && |s.connLats| >= |s.lats| && |s.dnsLats| >= |s.lats| && |s.reqLats| >= |s.lats|
    && |s.delayLats| >= |s.lats| && |s.resLats| >= |s.lats| && |s.statusCodes| >= |s.lats|
    && |s.offsets| >= |s.lats|
  }

  /** The fields of row `i`, in column order; the status code is printed with `%d`. */
  function CsvFields(s: Stored, i: nat, num: int -> string): (f: seq<string>)
    requires CsvReady(s) && i < |s.lats|
    ensures |f| == |CsvColumns|
  {
    [num(s.lats[i]), num(s.connLats[i]), num(s.dnsLats[i]), num(s.reqLats[i]),
     num(s.delayLats[i]), num(s.resLats[i]), Itoa(s.statusCodes[i]), num(s.offsets[i])]
  }

  /** Row `i` as text. */
  function CsvRow(s: Stored, i: nat, num: int -> string): string
    requires CsvReady(s) && i < |s.lats|
  {
    Join(CsvFields(s, i, num), ",")
  }

  /** The rows, one per latency. */
  function RowTexts(s: Stored, num: int -> string): (rows: seq<string>)
    requires CsvReady(s)
    ensures |rows| == |s.lats|
    ensures forall i :: 0 <= i < |rows| ==> rows[i] == CsvRow(s, i, num)
  {
    seq(|s.lats|, i requires 0 <= i < |s.lats| => CsvRow(s, i, num))
  }

  /** The rows as the template's `range` writes them: each after a newline. */
  function Body(rows: seq<string>): string {
    if rows == [] then [] else Body(rows[..|rows| - 1]) + "\n" + rows[|rows| - 1]
  }

  /** The CSV template's output: the header, then one row per latency. */
  function CsvText(r: Report, num: int -> string): string
    requires CsvReady(Columns(r))
  {
    Join(CsvColumns, ",") + Body(RowTexts(Columns(r), num))
  }

  /** Joined parts hold a separator character exactly between each two parts. */
  lemma {:induction false} JoinOcc(parts: seq<string>, c: char, d: char)
    requires parts != []
    requires forall i :: 0 <= i < |parts| ==> d !in parts[i]
    ensures Occ(Join(parts, [c]), d) == if c == d then |parts| - 1 else 0
  {
    if |parts| > 1 {
      var p := parts[..|parts| - 1];
      JoinOcc(p, c, d);
      OccAppend(Join(p, [c]) + [c], parts[|parts| - 1], d);
      OccAppend(Join(p, [c]), [c], d);
    }
  }

  /** A CSV row holds seven commas and no newline when the formatter emits neither. */
  lemma RowOcc(s: Stored, i: nat, num: int -> string, d: char)
    requires CsvReady(s) && i < |s.lats|
    requires d == ',' || d == '\n'
    requires Avoids(num, d)
    ensures Occ(CsvRow(s, i, num), d) == if d == ',' then 7 else 0
  {
    var f := CsvFields(s, i, num);
    ItoaAvoids(s.statusCodes[i], d);
    AvoidsAt(num, d, s.lats[i]);
    AvoidsAt(num, d, s.connLats[i]);
    AvoidsAt(num, d, s.dnsLats[i]);
    AvoidsAt(num, d, s.reqLats[i]);
    AvoidsAt(num, d, s.delayLats[i]);
    AvoidsAt(num, d, s.resLats[i]);
    AvoidsAt(num, d, s.offsets[i]);
    forall k | 0 <= k < |f| ensures d !in f[k] {
      if k < 4 {
        assert k == 0 || k == 1 || k == 2 || k == 3;
      } else {
        assert k == 4 || k == 5 || k == 6 || k == 7;
      }
    }
    JoinOcc(f, ',', d);
  }

  /** Rows without newlines make one line each. */
  lemma {:induction false} BodyNewlines(rows: seq<string>)
    requires forall i :: 0 <= i < |rows| ==> Occ(rows[i], '\n') == 0
    ensures Occ(Body(rows), '\n') == |rows|
  {
    if rows != [] {
      var p := rows[..|rows| - 1];
      BodyNewlines(p);
      OccAppend(Body(p) + "\n", rows[|rows| - 1], '\n');
      OccAppend(Body(p), "\n", '\n');
    }
  }

  /** Rows of seven commas each hold seven commas per row. */
  lemma {:induction false} BodyCommas(rows: seq<string>)
    requires forall i :: 0 <= i < |rows| ==> Occ(rows[i], ',') == 7
    ensures Occ(Body(rows), ',') == 7 * |rows|
  {
    if rows != [] {
      var p := rows[..|rows| - 1];
      BodyCommas(p);
      OccAppend(Body(p) + "\n", rows[|rows| - 1], ',');
      OccAppend(Body(p), "\n", ',');
    }
  }

  /** Two of the column names hold neither a comma nor a newline. */
  lemma ColumnsPlain(k: nat)
    requires k == 0 || k == 2 || k == 4 || k == 6
    ensures ',' !in CsvColumns[k] && '\n' !in CsvColumns[k]
    ensures ',' !in CsvColumns[k + 1] && '\n' !in CsvColumns[k + 1]
  {
    var c := CsvColumns;
    if k == 0 {
      assert c[0] == "response-time" && c[1] == "DNS+dialup";
    } else if k == 2 {
      assert c[2] == "DNS" && c[3] == "Request-write";
    } else if k == 4 {
      assert c[4] == "Response-delay" && c[5] == "Response-read";
    } else {
      assert c[6] == "status-code" && c[7] == "offset";
    }
  }

  /** No column name holds a comma or a newline. */
  lemma HeaderPlain()
    ensures forall k :: 0 <= k < |CsvColumns| ==> ',' !in CsvColumns[k] && '\n' !in CsvColumns[k]
  {
    ColumnsPlain(0);
    ColumnsPlain(2);
    ColumnsPlain(4);
    ColumnsPlain(6);
  }

  /**
   * The CSV output has one header line plus one line per stored latency
   * (|lats| newlines), and eight comma-separated fields on every line.
   */
  lemma CsvShape(r: Report, num: int -> string)
    requires CsvReady(Columns(r)) && Avoids(num, '\n') && Avoids(num, ',')
    ensures Occ(CsvText(r, num), '\n') == |r.lats|
    ensures Occ(CsvText(r, num), ',') == 7 * (|r.lats| + 1)
  {
    var header := Join(CsvColumns, ",");
    var rows := RowTexts(Columns(r), num);
    HeaderPlain();
    JoinOcc(CsvColumns, ',', '\n');
    JoinOcc(CsvColumns, ',', ',');
    forall i | 0 <= i < |rows| ensures Occ(rows[i], '\n') == 0 && Occ(rows[i], ',') == 7 {
      RowOcc(Columns(r), i, num, '\n');
      RowOcc(Columns(r), i, num, ',');
    }
    BodyNewlines(rows);
    BodyCommas(rows);
    OccAppend(header, Body(rows), '\n');
    OccAppend(header, Body(rows), ',');
  }
}
