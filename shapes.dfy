/** Text extraction from one slide shape and everything nested in it
    (`extract_text_recursive`). The shape kinds the source tells apart by
    probing attributes (group type, `has_table`, `has_chart`, `text`) form a
    closed datatype here; every read that may raise is a `Probe`. */
module Shapes {
  import opened Options
  import opened Strings

  /** What one read of a text-bearing part yields: it raises (`Malformed`),
      there is nothing to read (`Ok(None)`: no title, no text frame), or a text
      (`Ok(Some(t))`). Chart titles, axis titles and data labels have this form;
      so do the pieces the extractor appends to its text. */
  type Piece = Probe<Option<string>>

  /** A chart series: whether it shows data labels, and one label per point. */
  datatype Series = Series(hasDataLabels: bool, labels: seq<Piece>)

  /** The parts of a chart the extractor reads, in the order it reads them;
      `legend` is `None` when the chart has no legend. */
  datatype ChartParts = ChartParts(
    title: Piece,
    categoryAxisTitle: Piece,
    valueAxisTitle: Piece,
    legend: Option<seq<Probe<string>>>,
    series: seq<Probe<Series>>)

  /** A slide shape. The order of the variants is the order in which the
      source tests for them: group, table, chart, text-bearing shape; any
      other shape (a picture, a connector) is `Other`. */
  datatype Shape =
    | Group(children: seq<Shape>)
    | Table(rows: seq<seq<Probe<string>>>)
    | Chart(chart: ChartParts)
    | Text(text: string)
    | Other

  // ---------------------------------------------------------------------
  // Pieces: what each read contributes, and where an exception stops it
  // ---------------------------------------------------------------------

  function Fragment(p: Piece): seq<string> {
    if p.Ok? && p.value.Some? then [p.value.value] else []
  }

  /** The texts of all pieces, failed reads ignored. */
  function Emits(ps: seq<Piece>): seq<string> {
    if ps == [] then [] else Fragment(ps[0]) + Emits(ps[1..])
  }

  /** The texts appended before the first read that raises: the exception
      leaves the loops and the text accumulated so far is returned. */
  function Kept(ps: seq<Piece>): seq<string> {
    Emits(ps[..FirstMalformed(ps)])
  }

  function Stripped(p: Piece): Piece {
    if p.Ok? && p.value.Some? then Ok(Some(Strip(p.value.value))) else p
  }

  /** A table cell: its stripped text, even when that is empty. */
  function CellPiece(cell: Probe<string>): Piece {
    if cell.Ok? then Ok(Some(Strip(cell.value))) else Malformed
  }

  /** A legend entry: its stripped text, only when that is not empty. */
  function LegendPiece(entry: Probe<string>): Piece {
    if entry.Malformed? then Malformed
    else if Strip(entry.value) != "" then Ok(Some(Strip(entry.value)))
    else Ok(None)
  }

  function RowPieces(row: seq<Probe<string>>): seq<Piece> {
    if row == [] then [] else [CellPiece(row[0])] + RowPieces(row[1..])
  }

  /** Every cell, row-major. */
  function TablePieces(rows: seq<seq<Probe<string>>>): seq<Piece> {
    if rows == [] then [] else RowPieces(rows[0]) + TablePieces(rows[1..])
  }

  function LegendPieces(entries: seq<Probe<string>>): seq<Piece> {
    if entries == [] then [] else [LegendPiece(entries[0])] + LegendPieces(entries[1..])
  }

  function LegendPart(legend: Option<seq<Probe<string>>>): seq<Piece> {
    if legend.Some? then LegendPieces(legend.value) else []
  }

  /** Titles and data labels: each text stripped, kept even when empty. */
  function StrippedPieces(ps: seq<Piece>): seq<Piece> {
    if ps == [] then [] else [Stripped(ps[0])] + StrippedPieces(ps[1..])
  }

  /** The data labels of one series, when it shows them. */
  function SeriesPieces(s: Probe<Series>): seq<Piece> {
    match s
    case Malformed => [Malformed]
    case Ok(series) => if series.hasDataLabels then StrippedPieces(series.labels) else []
  }

  /** The data labels of all series, series by series. */
  function LabelPieces(series: seq<Probe<Series>>): seq<Piece> {
    if series == [] then [] else SeriesPieces(series[0]) + LabelPieces(series[1..])
  }

  function Frames(c: ChartParts): seq<Piece> {
    [c.title, c.categoryAxisTitle, c.valueAxisTitle]
  }

  /** Title, category-axis title, value-axis title, legend, data labels. */
  function ChartPieces(c: ChartParts): seq<Piece> {
    StrippedPieces(Frames(c)) + LegendPart(c.legend) + LabelPieces(c.series)
  }

  // ---------------------------------------------------------------------
  // The extracted text
  // ---------------------------------------------------------------------

  /** `extract_text_recursive(shape)`: the accumulated text, stripped. */
  function ShapeText(s: Shape): (r: string)
    ensures IsStripped(r)
    decreases s, 1
  {
    Strip(RawText(s))
  }

  /** The text the source accumulates before the final `strip()`. */
  function RawText(s: Shape): string
    decreases s, 0
  {
    match s
    case Group(children) =>
      Spaced(seq(|children|, i requires 0 <= i < |children| => ShapeText(children[i])))
    case Table(rows) => Spaced(Kept(TablePieces(rows)))
    case Chart(c) => Spaced(Kept(ChartPieces(c)))
    case Text(t) => if Strip(t) != "" then Strip(t) + " " else ""
    case Other => ""
  }

  function Texts(shapes: seq<Shape>): (r: seq<string>)
    ensures |r| == |shapes|
    ensures forall i :: 0 <= i < |shapes| ==> r[i] == ShapeText(shapes[i])
  {
    seq(|shapes|, i requires 0 <= i < |shapes| => ShapeText(shapes[i]))
  }

  // ---------------------------------------------------------------------
  // The extractor, step by step as the source builds its string
  // ---------------------------------------------------------------------

  method ExtractTextRecursive(shape: Shape) returns (text: string)
    ensures text == ShapeText(shape)
    decreases shape
  {
    var raw := "";
    match shape {
      case Group(children) =>
        ghost var texts := Texts(children);
        for i := 0 to |children|
          invariant raw == Spaced(texts[..i])
        {
          var t := ExtractTextRecursive(children[i]);
          SpacedStep(texts, i);
          raw := raw + t + " ";
        }
        assert texts[..|children|] == texts;
        assert raw == RawText(shape);
      case Table(rows) =>
        raw := TableRaw(rows);
        assert raw == RawText(shape);
      case Chart(c) =>
        raw := ChartRaw(c);
        assert raw == RawText(shape);
      case Text(t) =>
        var stripped := Strip(t);
        if stripped != "" {
          raw := raw + stripped + " ";
        }
        assert raw == RawText(shape);
      case Other =>
        assert raw == RawText(shape);
    }
    text := Strip(raw);
  }

  /** The cells of a table, row-major, each stripped and followed by a space.
      A cell that raises ends the table's text (`stopped`). */
  method TableRaw(rows: seq<seq<Probe<string>>>) returns (raw: string)
    ensures raw == Spaced(Kept(TablePieces(rows)))
  {
    raw := "";
    for r := 0 to |rows|
      invariant !Stops(TablePieces(rows[..r]))
      invariant raw == Spaced(Kept(TablePieces(rows[..r])))
    {
      TablePiecesStep(rows, r);
      var more, stopped := RowRaw(rows[r]);
      Continue(TablePieces(rows[..r]), RowPieces(rows[r]), raw, more);
      raw := raw + more;
      if stopped {
        TablePiecesSplit(rows, r + 1);
        KeptAppend(TablePieces(rows[..r + 1]), TablePieces(rows[r + 1..]));
        return;
      }
    }
    assert rows[..|rows|] == rows;
  }

  /** The cells of one row. */
  method RowRaw(row: seq<Probe<string>>) returns (raw: string, stopped: bool)
    ensures raw == Spaced(Kept(RowPieces(row)))
    ensures stopped == Stops(RowPieces(row))
  {
    raw := "";
    ghost var all := RowPieces(row);
    ghost var done: seq<Piece> := [];
    assert row[0..] == row;
    for c := 0 to |row|
      invariant done + RowPieces(row[c..]) == all
      invariant AllOk(done) && raw == Spaced(Emits(done))
    {
      if row[c].Malformed? {
        RowStops(row, c, done, all);
        return raw, true;
      }
      var text := Strip(row[c].value);
      RowAdvance(row, c, done, all);
      raw := raw + text + " ";
      done := done + [CellPiece(row[c])];
    }
    assert RowPieces(row[|row|..]) == [];
    StopsAt(done, []);
    stopped := false;
  }

  /** Title, axis titles, non-blank legend entries and data labels of a chart.
      Each block of reads is one loop below; `stopped` says that a read raised,
      which leaves the chart branch with the text gathered so far. */
  method ChartRaw(c: ChartParts) returns (raw: string)
    ensures raw == Spaced(Kept(ChartPieces(c)))
  {
    ghost var frames, legend, labels := StrippedPieces(Frames(c)), LegendPart(c.legend), LabelPieces(c.series);
    ghost var head := frames + legend;
    assert ChartPieces(c) == head + labels;
    KeptAppend(frames, legend);
    KeptAppend(head, labels);
    var stopped;
    // The chart title, then the category-axis and the value-axis title.
    raw, stopped := StrippedRaw([c.title, c.categoryAxisTitle, c.valueAxisTitle]);
    assert [c.title, c.categoryAxisTitle, c.valueAxisTitle] == Frames(c);
    if stopped {
      assert Kept(ChartPieces(c)) == Kept(frames);
      return;
    }
    // Legend entries whose text is not blank.
    if c.legend.Some? {
      var more;
      more, stopped := LegendRaw(c.legend.value);
      Continue(frames, legend, raw, more);
      raw := raw + more;
      if stopped {
        assert Kept(ChartPieces(c)) == Kept(head);
        return;
      }
    } else {
      assert legend == [];
      assert head == frames;
    }
    // Data labels, series by series and point by point. The source reads them
    // inside a try block of their own; it is the last block of the chart
    // branch, so a failure there also ends the chart's text.
    var more;
    more, stopped := LabelsRaw(c.series);
    SpacedAppend(Kept(head), Kept(labels));
    raw := raw + more;
  }

  /** Titles, or the data labels of one series: each present text, stripped. */
  method StrippedRaw(ps: seq<Piece>) returns (raw: string, stopped: bool)
    ensures raw == Spaced(Kept(StrippedPieces(ps)))
    ensures stopped == Stops(StrippedPieces(ps))
  {
    raw := "";
    ghost var all := StrippedPieces(ps);
    ghost var done: seq<Piece> := [];
    assert ps[0..] == ps;
    for i := 0 to |ps|
      invariant done + StrippedPieces(ps[i..]) == all
      invariant AllOk(done) && raw == Spaced(Emits(done))
    {
      if ps[i].Malformed? {
        StrippedStops(ps, i, done, all);
        return raw, true;
      }
      StrippedAdvance(ps, i, done, all);
      if ps[i].value.Some? {
        var text := Strip(ps[i].value.value);
        raw := raw + text + " ";
      }
      done := done + [Stripped(ps[i])];
    }
    assert StrippedPieces(ps[|ps|..]) == [];
    StopsAt(done, []);
    stopped := false;
  }

  /** Legend entries, each stripped, the blank ones skipped. */
  method LegendRaw(entries: seq<Probe<string>>) returns (raw: string, stopped: bool)
    ensures raw == Spaced(Kept(LegendPieces(entries)))
    ensures stopped == Stops(LegendPieces(entries))
  {
    raw := "";
    ghost var all := LegendPieces(entries);
    ghost var done: seq<Piece> := [];
    assert entries[0..] == entries;
    for e := 0 to |entries|
      invariant done + LegendPieces(entries[e..]) == all
      invariant AllOk(done) && raw == Spaced(Emits(done))
    {
      if entries[e].Malformed? {
        LegendStops(entries, e, done, all);
        return raw, true;
      }
      var text := Strip(entries[e].value);
      LegendAdvance(entries, e, done, all);
      if text != "" {
        raw := raw + text + " ";
      }
      done := done + [LegendPiece(entries[e])];
    }
    assert LegendPieces(entries[|entries|..]) == [];
    StopsAt(done, []);
    stopped := false;
  }

  /** The cell loop meets a cell that raises: the text so far is kept. */
  lemma RowStops(row: seq<Probe<string>>, c: nat, done: seq<Piece>, all: seq<Piece>)
    requires c < |row| && row[c].Malformed?
    requires done + RowPieces(row[c..]) == all && AllOk(done)
    ensures Kept(all) == Emits(done) && Stops(all)
  {
    assert row[c..][1..] == row[c + 1..];
    StopsAt(done, [Malformed] + RowPieces(row[c + 1..]));
  }

  /** The cell loop reads a cell: its stripped text is appended with a space. */
  lemma RowAdvance(row: seq<Probe<string>>, c: nat, done: seq<Piece>, all: seq<Piece>)
    requires c < |row| && row[c].Ok?
    requires done + RowPieces(row[c..]) == all && AllOk(done)
    ensures (done + [CellPiece(row[c])]) + RowPieces(row[c + 1..]) == all
    ensures AllOk(done + [CellPiece(row[c])])
    ensures Spaced(Emits(done + [CellPiece(row[c])])) == Spaced(Emits(done)) + Strip(row[c].value) + " "
  {
    var p := CellPiece(row[c]);
    assert row[c..][1..] == row[c + 1..];
    Grow(done, p, RowPieces(row[c + 1..]));
    var text := Strip(row[c].value);
    calc {
      Spaced(Emits(done + [p]));
      Spaced(Emits(done)) + Appended(p);
      { assert Appended(p) == text + " "; }
      Spaced(Emits(done)) + (text + " ");
      Spaced(Emits(done)) + text + " ";
    }
  }

  /** The title loop meets a read that raises: the text so far is kept. */
  lemma StrippedStops(ps: seq<Piece>, i: nat, done: seq<Piece>, all: seq<Piece>)
    requires i < |ps| && ps[i].Malformed?
    requires done + StrippedPieces(ps[i..]) == all && AllOk(done)
    ensures Kept(all) == Emits(done) && Stops(all)
  {
    assert ps[i..][1..] == ps[i + 1..];
    StopsAt(done, [Malformed] + StrippedPieces(ps[i + 1..]));
  }

  /** The title loop reads a title: its stripped text, if it has one, is
      appended with a space. */
  lemma StrippedAdvance(ps: seq<Piece>, i: nat, done: seq<Piece>, all: seq<Piece>)
    requires i < |ps| && ps[i].Ok?
    requires done + StrippedPieces(ps[i..]) == all && AllOk(done)
    ensures (done + [Stripped(ps[i])]) + StrippedPieces(ps[i + 1..]) == all
    ensures AllOk(done + [Stripped(ps[i])])
    ensures Spaced(Emits(done + [Stripped(ps[i])]))
      == Spaced(Emits(done)) + if ps[i].value.Some? then Strip(ps[i].value.value) + " " else ""
  {
    assert ps[i..][1..] == ps[i + 1..];
    Grow(done, Stripped(ps[i]), StrippedPieces(ps[i + 1..]));
  }

  /** The legend loop meets an entry that raises: the text so far is kept. */
  lemma LegendStops(entries: seq<Probe<string>>, e: nat, done: seq<Piece>, all: seq<Piece>)
    requires e < |entries| && entries[e].Malformed?
    requires done + LegendPieces(entries[e..]) == all && AllOk(done)
    ensures Kept(all) == Emits(done) && Stops(all)
  {
    assert entries[e..][1..] == entries[e + 1..];
    StopsAt(done, [Malformed] + LegendPieces(entries[e + 1..]));
  }

  /** The legend loop reads an entry: its stripped text, if not blank, is
      appended with a space. */
  lemma LegendAdvance(entries: seq<Probe<string>>, e: nat, done: seq<Piece>, all: seq<Piece>)
    requires e < |entries| && entries[e].Ok?
    requires done + LegendPieces(entries[e..]) == all && AllOk(done)
    ensures (done + [LegendPiece(entries[e])]) + LegendPieces(entries[e + 1..]) == all
    ensures AllOk(done + [LegendPiece(entries[e])])
    ensures var text := Strip(entries[e].value);
      Spaced(Emits(done + [LegendPiece(entries[e])]))
      == Spaced(Emits(done)) + if text != "" then text + " " else ""
  {
    assert entries[e..][1..] == entries[e + 1..];
    Grow(done, LegendPiece(entries[e]), LegendPieces(entries[e + 1..]));
  }

  /** The data labels of every series that shows them. */
  method LabelsRaw(series: seq<Probe<Series>>) returns (raw: string, stopped: bool)
    ensures raw == Spaced(Kept(LabelPieces(series)))
    ensures stopped == Stops(LabelPieces(series))
  {
    raw := "";
    for s := 0 to |series|
      invariant !Stops(LabelPieces(series[..s]))
      invariant raw == Spaced(Kept(LabelPieces(series[..s])))
    {
      LabelPiecesStep(series, s);
      var more := "";
      match series[s] {
        case Malformed =>
          stopped := true;
          assert SeriesPieces(series[s]) == [Malformed];
          ghost var none: seq<Piece> := [];
          StopsAt(none, [Malformed]);
          assert none + [Malformed] == [Malformed];
        case Ok(x) =>
          if x.hasDataLabels {
            more, stopped := StrippedRaw(x.labels);
          } else {
            stopped := false;
            assert FirstMalformed(SeriesPieces(series[s])) == 0;
          }
      }
      Continue(LabelPieces(series[..s]), SeriesPieces(series[s]), raw, more);
      raw := raw + more;
      if stopped {
        LabelPiecesSplit(series, s + 1);
        KeptAppend(LabelPieces(series[..s + 1]), LabelPieces(series[s + 1..]));
        return;
      }
    }
    assert series[..|series|] == series;
    stopped := false;
  }

  /** The text a successful read appends: its text and one space, if any. */
  function Appended(p: Piece): string {
    if p.Ok? && p.value.Some? then p.value.value + " " else ""
  }

  /** One successful read moves from the remaining pieces to the done ones
      and appends its text. */
  lemma Grow(done: seq<Piece>, p: Piece, rest: seq<Piece>)
    requires AllOk(done) && p.Ok?
    ensures done + ([p] + rest) == (done + [p]) + rest
    ensures AllOk(done + [p])
    ensures Spaced(Emits(done + [p])) == Spaced(Emits(done)) + Appended(p)
  {
    Shift(done, p, rest);
    AllOkSnoc(done, p);
    EmitsSnoc(done, p);
    if p.value.Some? {
      SpacedSnoc(Emits(done), p.value.value);
      assert Fragment(p) == [p.value.value];
    } else {
      assert Emits(done) + [] == Emits(done);
    }
  }

  // ---------------------------------------------------------------------
  // Lemmas about pieces
  // ---------------------------------------------------------------------

  lemma Shift(done: seq<Piece>, p: Piece, rest: seq<Piece>)
    ensures done + ([p] + rest) == (done + [p]) + rest
  {
  }

  lemma {:induction false} EmitsAppend(a: seq<Piece>, b: seq<Piece>)
    ensures Emits(a + b) == Emits(a) + Emits(b)
  {
    if a == [] {
      assert a + b == b;
    } else {
      assert (a + b)[1..] == a[1..] + b;
      EmitsAppend(a[1..], b);
    }
  }

  lemma EmitsSnoc(ps: seq<Piece>, p: Piece)
    ensures Emits(ps + [p]) == Emits(ps) + Fragment(p)
  {
    EmitsAppend(ps, [p]);
    assert Emits([p]) == Fragment(p) + Emits([]);
  }

  /** Some read raises. */
  predicate Stops(ps: seq<Piece>) {
    FirstMalformed(ps) < |ps|
  }

  /** Reads done one block after another: once a block raises, nothing of
      the later blocks is kept. */
  lemma KeptAppend(a: seq<Piece>, b: seq<Piece>)
    ensures Kept(a + b) == if Stops(a) then Kept(a) else Kept(a) + Kept(b)
    ensures Stops(a + b) == (Stops(a) || Stops(b))
  {
    var n := FirstMalformed(a);
    if n < |a| {
      assert (a + b)[..n] == a[..n];
      FirstMalformedAt(a + b, n);
    } else {
      var m := FirstMalformed(b);
      assert a[..n] == a;
      assert (a + b)[..n + m] == a + b[..m];
      AllOkAppend(a, b[..m]);
      FirstMalformedAt(a + b, n + m);
      EmitsAppend(a, b[..m]);
    }
  }

  /** Reads that follow a block which did not raise: their text is added to
      the block's, and they raise exactly when the combined reads do. */
  lemma Continue(prev: seq<Piece>, here: seq<Piece>, raw: string, more: string)
    requires !Stops(prev) && raw == Spaced(Kept(prev)) && more == Spaced(Kept(here))
    ensures raw + more == Spaced(Kept(prev + here))
    ensures Stops(prev + here) == Stops(here)
  {
    KeptAppend(prev, here);
    SpacedAppend(Kept(prev), Kept(here));
  }

  lemma LabelPiecesStep(series: seq<Probe<Series>>, n: nat)
    requires n < |series|
    ensures LabelPieces(series[..n + 1]) == LabelPieces(series[..n]) + SeriesPieces(series[n])
  {
    LabelPiecesAppend(series[..n], [series[n]]);
    assert series[..n + 1] == series[..n] + [series[n]];
    assert LabelPieces([series[n]]) == SeriesPieces(series[n]) + LabelPieces([]) by {
      assert [series[n]][1..] == [];
    }
  }

  lemma LabelPiecesSplit(series: seq<Probe<Series>>, n: nat)
    requires n <= |series|
    ensures LabelPieces(series) == LabelPieces(series[..n]) + LabelPieces(series[n..])
  {
    assert series == series[..n] + series[n..];
    LabelPiecesAppend(series[..n], series[n..]);
  }

  lemma TablePiecesStep(rows: seq<seq<Probe<string>>>, n: nat)
    requires n < |rows|
    ensures TablePieces(rows[..n + 1]) == TablePieces(rows[..n]) + RowPieces(rows[n])
  {
    TablePiecesAppend(rows[..n], [rows[n]]);
    assert rows[..n + 1] == rows[..n] + [rows[n]];
    assert TablePieces([rows[n]]) == RowPieces(rows[n]) + TablePieces([]) by {
      assert [rows[n]][1..] == [];
    }
  }

  lemma TablePiecesSplit(rows: seq<seq<Probe<string>>>, n: nat)
    requires n <= |rows|
    ensures TablePieces(rows) == TablePieces(rows[..n]) + TablePieces(rows[n..])
  {
    assert rows == rows[..n] + rows[n..];
    TablePiecesAppend(rows[..n], rows[n..]);
  }

  lemma {:induction false} LabelPiecesAppend(a: seq<Probe<Series>>, b: seq<Probe<Series>>)
    ensures LabelPieces(a + b) == LabelPieces(a) + LabelPieces(b)
  {
    if a == [] {
      assert a + b == b;
    } else {
      assert (a + b)[1..] == a[1..] + b;
      LabelPiecesAppend(a[1..], b);
    }
  }

  /** When the reads in `done` all succeed and the next one raises (or there
      is none), the kept texts are exactly those of `done`. */
  lemma StopsAt(done: seq<Piece>, rest: seq<Piece>)
    requires AllOk(done)
    requires rest == [] || rest[0].Malformed?
    ensures Kept(done + rest) == Emits(done)
    ensures Stops(done + rest) == (rest != [])
  {
    StopsAfter(done, rest);
  }

  /** An exception never adds text: what is kept is a prefix of what all the
      reads would give if none of them raised. */
  lemma KeptIsPrefix(ps: seq<Piece>)
    ensures Kept(ps) <= Emits(ps)
  {
    var n := FirstMalformed(ps);
    EmitsAppend(ps[..n], ps[n..]);
    assert ps[..n] + ps[n..] == ps;
  }

  lemma SpacedPrefix(a: seq<string>, b: seq<string>)
    requires a <= b
    ensures Spaced(a) <= Spaced(b)
  {
    SpacedAppend(a, b[|a|..]);
    assert a + b[|a|..] == b;
  }

  lemma {:induction false} AllOkAppend(a: seq<Piece>, b: seq<Piece>)
    ensures AllOk(a + b) <==> AllOk(a) && AllOk(b)
    decreases |b|
  {
    if b == [] {
      assert a + b == a;
    } else {
      var b' := b[..|b| - 1];
      assert a + b == (a + b') + [b[|b| - 1]];
      AllOkSnoc(a + b', b[|b| - 1]);
      AllOkSnoc(b', b[|b| - 1]);
      assert b' + [b[|b| - 1]] == b;
      AllOkAppend(a, b');
    }
  }

  // ---------------------------------------------------------------------
  // Properties of the extracted text
  // ---------------------------------------------------------------------

  /** A text shape yields its stripped text; a blank one yields "". */
  lemma PlainText(t: string)
    ensures ShapeText(Text(t)) == Strip(t)
    ensures AllSpace(t) ==> ShapeText(Text(t)) == ""
  {
    assert RawText(Text(t)) == if Strip(t) != "" then Strip(t) + " " else "";
    StripBlank(t);
    if Strip(t) != "" {
      StripPadded([], Strip(t), " ");
      assert [] + Strip(t) + " " == Strip(t) + " ";
    }
  }

  /** Wrapping a shape in a group of its own does not change its text. */
  lemma GroupOfOne(child: Shape)
    ensures ShapeText(Group([child])) == ShapeText(child)
  {
    var t := ShapeText(child);
    assert RawText(Group([child])) == Spaced(Texts([child]));
    assert Texts([child]) == [] + [t];
    SpacedSnoc([], t);
    StripPadded([], t, " ");
    assert [] + t + " " == "" + t + " ";
  }

  /** When no child extracts to "", a group's text is its children's texts,
      in order, separated by single spaces. */
  lemma GroupOfNonBlank(children: seq<Shape>)
    requires forall i :: 0 <= i < |children| ==> ShapeText(children[i]) != ""
    ensures ShapeText(Group(children)) == JoinSpace(Texts(children))
  {
    assert RawText(Group(children)) == Spaced(Texts(children));
    StripSpacedIsJoin(Texts(children));
  }

  /** A child that extracts to "" still adds its space: between two text
      shapes, a blank shape leaves two spaces. */
  lemma GroupBlankChild(x: string, y: string)
    requires x != "" && IsStripped(x) && y != "" && IsStripped(y)
    ensures ShapeText(Group([Text(x), Other, Text(y)])) == x + "  " + y
  {
    var children := [Text(x), Other, Text(y)];
    PlainText(x);
    PlainText(y);
    StripStripped(x);
    StripStripped(y);
    var texts := Texts(children);
    assert texts == [] + [x] + [""] + [y];
    SpacedSnoc([], x);
    SpacedSnoc([x], "");
    assert [] + [x] + [""] == [x, ""];
    SpacedSnoc([x, ""], y);
    assert [x, ""] + [y] == texts;
    assert RawText(Group(children)) == Spaced(texts);
    assert Spaced(texts) == [] + (x + "  " + y) + " ";
    StripPadded([], x + "  " + y, " ");
  }

  /** A read that raises inside a grouped shape ends only that shape's text:
      a table whose first cell raises yields "", and the enclosing group goes
      on with its next child. */
  lemma InnerFailureStaysInside(cells: seq<Probe<string>>, rows: seq<seq<Probe<string>>>, x: string)
    requires x != "" && IsStripped(x)
    ensures ShapeText(Group([Table([[Malformed] + cells] + rows), Text(x)])) == x
  {
    var table := Table([[Malformed] + cells] + rows);
    var ps := TablePieces(table.rows);
    assert ps[0] == Malformed;
    FirstMalformedAt(ps, 0);
    assert ShapeText(table) == "" by {
      assert Kept(ps) == Emits([]);
      assert RawText(table) == Spaced([]);
    }
    PlainText(x);
    StripStripped(x);
    var children := [table, Text(x)];
    var texts := Texts(children);
    assert texts == [""] + [x];
    SpacedSnoc([], "");
    SpacedSnoc([""], x);
    assert RawText(Group(children)) == Spaced(texts);
    assert Spaced(texts) == " " + x + " ";
    StripPadded(" ", x, " ");
  }

  predicate CellsReadable(rows: seq<seq<Probe<string>>>) {
    forall r, c :: 0 <= r < |rows| && 0 <= c < |rows[r]| ==> rows[r][c].Ok?
  }

  /** The stripped texts of the readable cells, row-major, blank ones included. */
  function CellTexts(rows: seq<seq<Probe<string>>>): seq<string> {
    if rows == [] then [] else RowTexts(rows[0]) + CellTexts(rows[1..])
  }

  function RowTexts(row: seq<Probe<string>>): seq<string> {
    if row == [] then []
    else (if row[0].Ok? then [Strip(row[0].value)] else []) + RowTexts(row[1..])
  }

  lemma {:induction false} RowPiecesEmit(row: seq<Probe<string>>)
    ensures Emits(RowPieces(row)) == RowTexts(row)
  {
    if row != [] {
      RowPiecesEmit(row[1..]);
      EmitsAppend([CellPiece(row[0])], RowPieces(row[1..]));
      assert Emits([CellPiece(row[0])]) == Fragment(CellPiece(row[0])) + Emits([]);
    }
  }

  lemma {:induction false} TablePiecesEmit(rows: seq<seq<Probe<string>>>)
    ensures Emits(TablePieces(rows)) == CellTexts(rows)
  {
    if rows != [] {
      TablePiecesEmit(rows[1..]);
      RowPiecesEmit(rows[0]);
      EmitsAppend(RowPieces(rows[0]), TablePieces(rows[1..]));
    }
  }

  lemma {:induction false} RowPiecesReadable(row: seq<Probe<string>>)
    requires forall c :: 0 <= c < |row| ==> row[c].Ok?
    ensures AllOk(RowPieces(row))
  {
    if row != [] {
      RowPiecesReadable(row[1..]);
      AllOkAppend([CellPiece(row[0])], RowPieces(row[1..]));
      AllOkSnoc([], CellPiece(row[0]));
      assert [] + [CellPiece(row[0])] == [CellPiece(row[0])];
    }
  }

  lemma {:induction false} TablePiecesReadable(rows: seq<seq<Probe<string>>>)
    requires CellsReadable(rows)
    ensures AllOk(TablePieces(rows))
  {
    if rows != [] {
      var later := rows[1..];
      assert CellsReadable(later) by {
        forall r, c | 0 <= r < |later| && 0 <= c < |later[r]| ensures later[r][c].Ok? {
          assert later[r] == rows[r + 1];
        }
      }
      TablePiecesReadable(later);
      RowPiecesReadable(rows[0]);
      AllOkAppend(RowPieces(rows[0]), TablePieces(later));
    }
  }

  lemma {:induction false} RowPiecesAppend(a: seq<Probe<string>>, b: seq<Probe<string>>)
    ensures RowPieces(a + b) == RowPieces(a) + RowPieces(b)
  {
    if a == [] {
      assert a + b == b;
    } else {
      assert (a + b)[1..] == a[1..] + b;
      RowPiecesAppend(a[1..], b);
    }
  }

  lemma {:induction false} TablePiecesAppend(a: seq<seq<Probe<string>>>, b: seq<seq<Probe<string>>>)
    ensures TablePieces(a + b) == TablePieces(a) + TablePieces(b)
  {
    if a == [] {
      assert a + b == b;
    } else {
      assert (a + b)[1..] == a[1..] + b;
      TablePiecesAppend(a[1..], b);
    }
  }

  /** A table whose cells can all be read yields every cell's stripped text,
      row-major, each followed by one space (blank cells too), then stripped. */
  lemma TableInOrder(rows: seq<seq<Probe<string>>>)
    requires CellsReadable(rows)
    ensures ShapeText(Table(rows)) == Strip(Spaced(CellTexts(rows)))
  {
    TablePiecesReadable(rows);
    StopsAt(TablePieces(rows), []);
    assert TablePieces(rows) + [] == TablePieces(rows);
    TablePiecesEmit(rows);
  }

  /** A cell that cannot be read ends the table's text: the result is the
      text of the cells before it, as if the table stopped there. */
  lemma TableStopsAtMalformedCell(rows: seq<seq<Probe<string>>>, r: nat, c: nat)
    requires r < |rows| && c < |rows[r]| && rows[r][c].Malformed?
    requires CellsReadable(rows[..r]) && forall j :: 0 <= j < c ==> rows[r][j].Ok?
    ensures ShapeText(Table(rows)) == ShapeText(Table(rows[..r] + [rows[r][..c]]))
  {
    var cut := rows[..r] + [rows[r][..c]];
    assert CellsReadable(cut) by {
      forall i, j | 0 <= i < |cut| && 0 <= j < |cut[i]| ensures cut[i][j].Ok? {
        if i < r { assert cut[i] == rows[..r][i]; }
      }
    }
    TablePiecesReadable(cut);
    var rest := TableCut(rows, r, c);
    StopsAt(TablePieces(cut), [Malformed] + rest);
    StopsAt(TablePieces(cut), []);
    assert TablePieces(cut) + [] == TablePieces(cut);
  }

  /** The pieces of a table cut before cell `c` of row `r` come first in the
      pieces of the whole table, followed by that cell's piece. */
  lemma TableCut(rows: seq<seq<Probe<string>>>, r: nat, c: nat) returns (rest: seq<Piece>)
    requires r < |rows| && c < |rows[r]|
    ensures TablePieces(rows) == TablePieces(rows[..r] + [rows[r][..c]]) + ([CellPiece(rows[r][c])] + rest)
  {
    var row := rows[r];
    TablePiecesAppend(rows[..r], [row[..c]]);
    assert TablePieces([row[..c]]) == RowPieces(row[..c]) + TablePieces([][..]) by {
      assert [row[..c]][1..] == [];
    }
    assert rows == rows[..r] + ([row] + rows[r + 1..]);
    TablePiecesAppend(rows[..r], [row] + rows[r + 1..]);
    assert ([row] + rows[r + 1..])[1..] == rows[r + 1..];
    assert row == row[..c] + row[c..];
    RowPiecesAppend(row[..c], row[c..]);
    assert row[c..][1..] == row[c + 1..];
    rest := RowPieces(row[c + 1..]) + TablePieces(rows[r + 1..]);
  }

  /** The texts a chart shows, in reading order, failed reads ignored. */
  function ChartTexts(c: ChartParts): seq<string> {
    FrameText(c.title) + FrameText(c.categoryAxisTitle) + FrameText(c.valueAxisTitle)
    + LegendTexts(c.legend) + LabelTexts(c.series)
  }

  function FrameText(p: Piece): seq<string> {
    if p.Ok? && p.value.Some? then [Strip(p.value.value)] else []
  }

  function EntryTexts(entries: seq<Probe<string>>): seq<string> {
    if entries == [] then []
    else
      var e := entries[0];
      (if e.Ok? && Strip(e.value) != "" then [Strip(e.value)] else []) + EntryTexts(entries[1..])
  }

  function LegendTexts(legend: Option<seq<Probe<string>>>): seq<string> {
    if legend.Some? then EntryTexts(legend.value) else []
  }

  function PointTexts(labels: seq<Piece>): seq<string> {
    if labels == [] then [] else FrameText(labels[0]) + PointTexts(labels[1..])
  }

  function LabelTexts(series: seq<Probe<Series>>): seq<string> {
    if series == [] then []
    else
      var s := series[0];
      (if s.Ok? && s.value.hasDataLabels then PointTexts(s.value.labels) else [])
      + LabelTexts(series[1..])
  }

  lemma {:induction false} LegendEmit(entries: seq<Probe<string>>)
    ensures Emits(LegendPieces(entries)) == EntryTexts(entries)
  {
    if entries != [] {
      LegendEmit(entries[1..]);
      EmitsAppend([LegendPiece(entries[0])], LegendPieces(entries[1..]));
      assert Emits([LegendPiece(entries[0])]) == Fragment(LegendPiece(entries[0])) + Emits([]);
    }
  }

  lemma {:induction false} PointsEmit(labels: seq<Piece>)
    ensures Emits(StrippedPieces(labels)) == PointTexts(labels)
  {
    if labels != [] {
      PointsEmit(labels[1..]);
      EmitsAppend([Stripped(labels[0])], StrippedPieces(labels[1..]));
      assert Emits([Stripped(labels[0])]) == Fragment(Stripped(labels[0])) + Emits([]);
    }
  }

  lemma {:induction false} SeriesEmit(series: seq<Probe<Series>>)
    ensures Emits(LabelPieces(series)) == LabelTexts(series)
  {
    if series != [] {
      var s := series[0];
      SeriesEmit(series[1..]);
      EmitsAppend(SeriesPieces(s), LabelPieces(series[1..]));
      if s.Ok? && s.value.hasDataLabels {
        PointsEmit(s.value.labels);
      } else if s.Malformed? {
        assert Emits([Malformed]) == Fragment(Malformed) + Emits([]);
      }
    }
  }

  lemma ChartEmit(c: ChartParts)
    ensures Emits(ChartPieces(c)) == ChartTexts(c)
  {
    var frames := Frames(c);
    PointsEmit(frames);
    assert frames[1..] == [c.categoryAxisTitle, c.valueAxisTitle];
    assert frames[1..][1..] == [c.valueAxisTitle];
    assert frames[1..][1..][1..] == [];
    assert PointTexts(frames[1..][1..]) == FrameText(c.valueAxisTitle) + [];
    assert PointTexts(frames[1..]) == FrameText(c.categoryAxisTitle) + FrameText(c.valueAxisTitle);
    assert PointTexts(frames)
      == FrameText(c.title) + FrameText(c.categoryAxisTitle) + FrameText(c.valueAxisTitle);
    EmitsAppend(StrippedPieces(frames), LegendPart(c.legend));
    EmitsAppend(StrippedPieces(frames) + LegendPart(c.legend), LabelPieces(c.series));
    if c.legend.Some? {
      LegendEmit(c.legend.value);
    }
    SeriesEmit(c.series);
  }

  /** A chart's text is a prefix of the text it would give if none of its
      reads raised, which is title, category-axis title, value-axis title,
      non-blank legend entries and data labels, in that order. */
  lemma ChartKeepsPrefix(c: ChartParts)
    ensures RawText(Chart(c)) <= Spaced(ChartTexts(c))
  {
    KeptIsPrefix(ChartPieces(c));
    ChartEmit(c);
    SpacedPrefix(Kept(ChartPieces(c)), ChartTexts(c));
  }

  /** Every part the extractor reads from the chart can be read. */
  predicate ChartReadable(c: ChartParts) {
    && c.title.Ok? && c.categoryAxisTitle.Ok? && c.valueAxisTitle.Ok?
    && (c.legend.Some? ==> forall e :: 0 <= e < |c.legend.value| ==> c.legend.value[e].Ok?)
    && (forall s :: 0 <= s < |c.series| ==> c.series[s].Ok?)
    && (forall s, p :: 0 <= s < |c.series| && c.series[s].Ok? && c.series[s].value.hasDataLabels
          && 0 <= p < |c.series[s].value.labels|
          ==> c.series[s].value.labels[p].Ok?)
  }

  lemma {:induction false} StrippedReadable(ps: seq<Piece>)
    requires forall k :: 0 <= k < |ps| ==> ps[k].Ok?
    ensures AllOk(StrippedPieces(ps))
  {
    if ps != [] {
      StrippedReadable(ps[1..]);
      AllOkAppend([Stripped(ps[0])], StrippedPieces(ps[1..]));
      AllOkSnoc([], Stripped(ps[0]));
      assert [] + [Stripped(ps[0])] == [Stripped(ps[0])];
    }
  }

  lemma {:induction false} LegendReadable(entries: seq<Probe<string>>)
    requires forall e :: 0 <= e < |entries| ==> entries[e].Ok?
    ensures AllOk(LegendPieces(entries))
  {
    if entries != [] {
      LegendReadable(entries[1..]);
      AllOkAppend([LegendPiece(entries[0])], LegendPieces(entries[1..]));
      AllOkSnoc([], LegendPiece(entries[0]));
      assert [] + [LegendPiece(entries[0])] == [LegendPiece(entries[0])];
    }
  }

  lemma {:induction false} LabelsReadable(series: seq<Probe<Series>>)
    requires forall s :: 0 <= s < |series| ==> series[s].Ok?
    requires forall s, p :: 0 <= s < |series| && series[s].Ok? && series[s].value.hasDataLabels
               && 0 <= p < |series[s].value.labels|
               ==> series[s].value.labels[p].Ok?
    ensures AllOk(LabelPieces(series))
  {
    if series != [] {
      LabelsReadable(series[1..]);
      var s := series[0];
      if s.value.hasDataLabels {
        StrippedReadable(s.value.labels);
      }
      AllOkAppend(SeriesPieces(s), LabelPieces(series[1..]));
    }
  }

  /** When every read succeeds, the chart's text is all of it, in order. */
  lemma ChartInOrder(c: ChartParts)
    requires ChartReadable(c)
    ensures ShapeText(Chart(c)) == Strip(Spaced(ChartTexts(c)))
  {
    var frames := Frames(c);
    StrippedReadable(frames);
    if c.legend.Some? {
      LegendReadable(c.legend.value);
    }
    LabelsReadable(c.series);
    AllOkAppend(StrippedPieces(frames), LegendPart(c.legend));
    AllOkAppend(StrippedPieces(frames) + LegendPart(c.legend), LabelPieces(c.series));
    StopsAt(ChartPieces(c), []);
    assert ChartPieces(c) + [] == ChartPieces(c);
    ChartEmit(c);
  }

  /** A chart with no title, no axis titles, no legend and no data labels
      yields "". */
  lemma EmptyChart(series: seq<Probe<Series>>)
    requires forall i :: 0 <= i < |series| ==> series[i].Ok? && !series[i].value.hasDataLabels
    ensures ShapeText(Chart(ChartParts(Ok(None), Ok(None), Ok(None), None, series))) == ""
  {
    var c := ChartParts(Ok(None), Ok(None), Ok(None), None, series);
    ChartInOrder(c);
    NoLabelTexts(series);
    assert ChartTexts(c) == [];
  }

  lemma {:induction false} NoLabelTexts(series: seq<Probe<Series>>)
    requires forall i :: 0 <= i < |series| ==> series[i].Ok? && !series[i].value.hasDataLabels
    ensures LabelTexts(series) == []
  {
    if series != [] {
      NoLabelTexts(series[1..]);
    }
  }
}
