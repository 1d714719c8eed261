/** Slide aggregation (`extract_text_from_pptx` without opening the file):
    one record per slide with its number, its inferred title and its text. */
module Slides {
  import opened Options
  import opened Strings
  import opened Shapes

  /** The position a shape without a `top` attribute is given. */
  const MissingTop := 9999999

  /** The font size a run reports: raises, unset (`None`), or a size. Sizes
      are in the library's integer length unit, which orders them as the
      point values the source compares. */
  type RunSize = Probe<Option<int>>

  /** A top-level shape of a slide: its content, its `top` attribute if it has
      one, and the run font sizes of its text frame, paragraph by paragraph
      (no paragraphs when it has no text frame). */
  datatype PlacedShape = PlacedShape(shape: Shape, top: Option<int>, paragraphs: seq<seq<RunSize>>)

  type Slide = seq<PlacedShape>

  /** A title candidate: position, largest font, text. */
  datatype Candidate = Candidate(y: int, font: int, text: string)

  datatype SlideRecord = SlideRecord(slideNum: int, title: string, text: string)

  // ---------------------------------------------------------------------
  // Font size of a shape
  // ---------------------------------------------------------------------

  /** The runs of all paragraphs, in order. */
  function Runs(paragraphs: seq<seq<RunSize>>): seq<RunSize> {
    if paragraphs == [] then [] else paragraphs[0] + Runs(paragraphs[1..])
  }

  /** `font_size = max(font_size, size)` for every run whose size is set and
      non-zero (a zero length is falsy), starting from 0. */
  function MaxSize(rs: seq<RunSize>): int {
    if rs == [] then 0
    else
      var m := MaxSize(rs[..|rs| - 1]);
      var last := rs[|rs| - 1];
      if last.Ok? && last.value.Some? && last.value.value != 0 then Max(m, last.value.value) else m
  }

  function Max(a: int, b: int): int {
    if a >= b then a else b
  }

  /** The font size of a shape: the largest size among the runs read before
      one raises (the exception leaves both loops, the size so far is kept). */
  function FontSize(paragraphs: seq<seq<RunSize>>): (f: int)
    ensures f >= 0
  {
    var rs := Runs(paragraphs);
    MaxSizeIsMax(rs[..FirstMalformed(rs)]);
    MaxSize(rs[..FirstMalformed(rs)])
  }

  /** Sizes a run can contribute: set and non-zero. */
  predicate Sized(r: RunSize) {
    r.Ok? && r.value.Some? && r.value.value != 0
  }

  /** `MaxSize` is the maximum of the sizes read, or 0: it is at least 0 and at
      least every size, and it is 0 or one of them. */
  lemma {:induction false} MaxSizeIsMax(rs: seq<RunSize>)
    ensures MaxSize(rs) >= 0
    ensures forall k :: 0 <= k < |rs| && Sized(rs[k]) ==> rs[k].value.value <= MaxSize(rs)
    ensures MaxSize(rs) == 0 || exists k :: 0 <= k < |rs| && Sized(rs[k]) && rs[k].value.value == MaxSize(rs)
  {
    if rs != [] {
      var front := rs[..|rs| - 1];
      MaxSizeIsMax(front);
      assert forall k :: 0 <= k < |front| ==> front[k] == rs[k];
      if MaxSize(rs) != 0 && MaxSize(rs) == MaxSize(front) {
        var k :| 0 <= k < |front| && Sized(front[k]) && front[k].value.value == MaxSize(front);
        assert rs[k] == front[k];
      }
    }
  }

  /** The font size of a shape is 0 when no run before the first failing read
      has a size, and otherwise the largest such size. */
  lemma FontSizeIsMax(paragraphs: seq<seq<RunSize>>)
    ensures var rs := Runs(paragraphs); var n := FirstMalformed(rs);
      && FontSize(paragraphs) >= 0
      && (forall k :: 0 <= k < n && Sized(rs[k]) ==> rs[k].value.value <= FontSize(paragraphs))
      && (FontSize(paragraphs) == 0
          || exists k :: 0 <= k < n && Sized(rs[k]) && rs[k].value.value == FontSize(paragraphs))
  {
    var rs := Runs(paragraphs);
    var n := FirstMalformed(rs);
    MaxSizeIsMax(rs[..n]);
    assert forall k :: 0 <= k < n ==> rs[..n][k] == rs[k];
  }

  /** The nested loop over paragraphs and runs that folds `max`. */
  method MaxRunSize(paragraphs: seq<seq<RunSize>>) returns (font: int)
    ensures font == FontSize(paragraphs)
  {
    font := 0;
    for p := 0 to |paragraphs|
      invariant AllOk(Runs(paragraphs[..p])) && font == MaxSize(Runs(paragraphs[..p]))
    {
      var runs := paragraphs[p];
      ghost var before := Runs(paragraphs[..p]);
      ghost var done := before;
      for r := 0 to |runs|
        invariant done == before + runs[..r]
        invariant AllOk(done) && font == MaxSize(done)
      {
        match runs[r] {
          case Malformed =>
            RunsCut(paragraphs, p, r);
            StopsAfter(done, runs[r..] + Runs(paragraphs[p + 1..]));
            return;
          case Ok(size) =>
            if size.Some? && size.value != 0 {
              font := Max(font, size.value);
            }
        }
        NextRun(done, runs[r]);
        assert runs[..r + 1] == runs[..r] + [runs[r]];
        done := done + [runs[r]];
      }
      RunsStep(paragraphs, p + 1);
      assert runs[..|runs|] == runs;
    }
    assert paragraphs[..|paragraphs|] == paragraphs;
    StopsAfter(Runs(paragraphs), []);
    assert Runs(paragraphs) + [] == Runs(paragraphs);
  }

  lemma NextRun(done: seq<RunSize>, r: RunSize)
    requires AllOk(done) && r.Ok?
    ensures AllOk(done + [r])
    ensures MaxSize(done + [r])
      == if Sized(r) then Max(MaxSize(done), r.value.value) else MaxSize(done)
  {
    AllOkSnoc(done, r);
    assert (done + [r])[..|done|] == done;
  }

  lemma {:induction false} RunsAppend(a: seq<seq<RunSize>>, b: seq<seq<RunSize>>)
    ensures Runs(a + b) == Runs(a) + Runs(b)
  {
    if a == [] {
      assert a + b == b;
    } else {
      assert (a + b)[1..] == a[1..] + b;
      RunsAppend(a[1..], b);
    }
  }

  /** The runs of the paragraphs, cut at run `r` of paragraph `p`. */
  lemma RunsCut(paragraphs: seq<seq<RunSize>>, p: nat, r: nat)
    requires p < |paragraphs| && r <= |paragraphs[p]|
    ensures Runs(paragraphs)
      == (Runs(paragraphs[..p]) + paragraphs[p][..r]) + (paragraphs[p][r..] + Runs(paragraphs[p + 1..]))
  {
    assert paragraphs[..p] + paragraphs[p..] == paragraphs;
    RunsAppend(paragraphs[..p], paragraphs[p..]);
    assert paragraphs[p..][1..] == paragraphs[p + 1..];
    assert paragraphs[p] == paragraphs[p][..r] + paragraphs[p][r..];
  }

  /** The runs of the first `p` paragraphs: those of the first `p - 1`, then
      those of paragraph `p - 1`. */
  lemma RunsStep(paragraphs: seq<seq<RunSize>>, p: nat)
    requires 0 < p <= |paragraphs|
    ensures Runs(paragraphs[..p]) == Runs(paragraphs[..p - 1]) + paragraphs[p - 1]
  {
    assert paragraphs[..p - 1] + [paragraphs[p - 1]] == paragraphs[..p];
    RunsAppend(paragraphs[..p - 1], [paragraphs[p - 1]]);
    assert Runs([paragraphs[p - 1]]) == paragraphs[p - 1] + Runs([]) by {
      assert [paragraphs[p - 1]][1..] == [];
    }
  }

  // ---------------------------------------------------------------------
  // Candidates, text and title of a slide
  // ---------------------------------------------------------------------

  /** `getattr(shape, "top", 9999999)`. */
  function Top(s: PlacedShape): int {
    if s.top.Some? then s.top.value else MissingTop
  }

  /** One candidate per shape whose extracted text is not empty, in shape
      order. */
  function Candidates(slide: Slide): (cs: seq<Candidate>)
    ensures forall k :: 0 <= k < |cs| ==> cs[k].text != "" && IsStripped(cs[k].text)
  {
    if slide == [] then []
    else
      var s := slide[|slide| - 1];
      var t := ShapeText(s.shape);
      Candidates(slide[..|slide| - 1])
      + (if t != "" then [Candidate(Top(s), FontSize(s.paragraphs), t)] else [])
  }

  function TextsOf(cs: seq<Candidate>): (ts: seq<string>)
    ensures |ts| == |cs|
    ensures forall k :: 0 <= k < |cs| ==> ts[k] == cs[k].text
  {
    if cs == [] then [] else TextsOf(cs[..|cs| - 1]) + [cs[|cs| - 1].text]
  }

  /** The slide text: each non-empty shape text followed by a space, stripped. */
  function SlideText(slide: Slide): string {
    Strip(Spaced(TextsOf(Candidates(slide))))
  }

  /** `a` comes before `b` when sorting by the key `(y, -font)`. */
  predicate Precedes(a: Candidate, b: Candidate) {
    a.y < b.y || (a.y == b.y && a.font > b.font)
  }

  /** `k` is where a stable sort by `(y, -font)` puts the first of the first
      `n` candidates: it strictly precedes every earlier candidate, and no
      later candidate strictly precedes it. */
  predicate BestAmong(cs: seq<Candidate>, k: int, n: int) {
    && 0 <= k < n <= |cs|
    && (forall j :: 0 <= j < k ==> Precedes(cs[k], cs[j]))
    && (forall j :: k < j < n ==> !Precedes(cs[j], cs[k]))
  }

  predicate IsTitleIndex(cs: seq<Candidate>, k: int) {
    BestAmong(cs, k, |cs|)
  }

  /** The index of the title candidate, one candidate at a time. */
  function TitleIndex(cs: seq<Candidate>): (k: nat)
    requires cs != []
    ensures IsTitleIndex(cs, k)
  {
    if |cs| == 1 then 0
    else
      var front := cs[..|cs| - 1];
      var best := TitleIndex(front);
      assert forall j :: 0 <= j < |front| ==> front[j] == cs[j];
      if Precedes(cs[|cs| - 1], cs[best]) then |cs| - 1 else best
  }

  /** `title_text`: "" without candidates, else the first one after sorting. */
  function Title(cs: seq<Candidate>): (t: string)
    ensures cs == [] ==> t == ""
    ensures cs != [] ==> exists k :: IsTitleIndex(cs, k) && t == cs[k].text
  {
    if cs == [] then "" else cs[TitleIndex(cs)].text
  }

  /** The record of the slide at index `i` (counted from 0). */
  function RecordOf(i: int, slide: Slide): SlideRecord {
    SlideRecord(i + 1, Title(Candidates(slide)), SlideText(slide))
  }

  /** One record per slide, in order, numbered from 1. */
  function Records(deck: seq<Slide>): (rs: seq<SlideRecord>)
    ensures |rs| == |deck|
  {
    if deck == [] then [] else Records(deck[..|deck| - 1]) + [RecordOf(|deck| - 1, deck[|deck| - 1])]
  }

  /** The record at index `i` is the record of slide `i`, numbered `i + 1`. */
  lemma {:induction false} RecordsAt(deck: seq<Slide>, i: nat)
    requires i < |deck|
    ensures Records(deck)[i] == RecordOf(i, deck[i])
    ensures Records(deck)[i].slideNum == i + 1
  {
    var front := deck[..|deck| - 1];
    if i < |front| {
      RecordsAt(front, i);
      assert front[i] == deck[i];
    }
  }

  // ---------------------------------------------------------------------
  // The aggregation, step by step
  // ---------------------------------------------------------------------

  /** `extract_text_from_pptx` on an opened deck. */
  method ExtractTextFromPptx(deck: seq<Slide>) returns (slidesData: seq<SlideRecord>)
    ensures slidesData == Records(deck)
  {
    slidesData := [];
    for i := 0 to |deck|
      invariant slidesData == Records(deck[..i])
    {
      var record := ReadSlide(i, deck[i]);
      assert deck[..i + 1][..i] == deck[..i];
      slidesData := slidesData + [record];
    }
    assert deck[..|deck|] == deck;
  }

  /** The body of the loop over slides: the text and the candidates of one
      slide, then its title. */
  method ReadSlide(i: int, slide: Slide) returns (record: SlideRecord)
    ensures record == RecordOf(i, slide)
  {
    var text := "";
    var candidates: seq<Candidate> := [];
    for s := 0 to |slide|
      invariant candidates == Candidates(slide[..s])
      invariant text == Spaced(TextsOf(candidates))
    {
      CandidatesStep(slide, s);
      var shapeText := ExtractTextRecursive(slide[s].shape);
      if shapeText != "" {
        text := text + shapeText + " ";
        var yPosition := if slide[s].top.Some? then slide[s].top.value else MissingTop;
        var fontSize := MaxRunSize(slide[s].paragraphs);
        var c := Candidate(yPosition, fontSize, shapeText);
        TextsSnoc(candidates, c);
        candidates := candidates + [c];
      }
    }
    assert slide[..|slide|] == slide;
    var titleText := "";
    if candidates != [] {
      var k := ChooseTitle(candidates);
      TitleIndexUnique(candidates, k, TitleIndex(candidates));
      titleText := candidates[k].text;
    }
    record := SlideRecord(i + 1, titleText, Strip(text));
  }

  lemma CandidatesStep(slide: Slide, s: nat)
    requires s < |slide|
    ensures var t := ShapeText(slide[s].shape);
      Candidates(slide[..s + 1])
      == Candidates(slide[..s]) + (if t != "" then [Candidate(Top(slide[s]), FontSize(slide[s].paragraphs), t)] else [])
  {
    assert slide[..s + 1][..s] == slide[..s];
  }

  lemma TextsSnoc(cs: seq<Candidate>, c: Candidate)
    ensures Spaced(TextsOf(cs + [c])) == Spaced(TextsOf(cs)) + c.text + " "
  {
    assert (cs + [c])[..|cs|] == cs;
    SpacedSnoc(TextsOf(cs), c.text);
  }

  /** The first candidate after a stable sort by `(y, -font)`, found by one
      pass that keeps the best so far and replaces it only by a candidate
      that strictly precedes it. */
  method ChooseTitle(cs: seq<Candidate>) returns (best: nat)
    requires cs != []
    ensures IsTitleIndex(cs, best)
  {
    best := 0;
    for i := 1 to |cs|
      invariant BestAmong(cs, best, i)
    {
      if Precedes(cs[i], cs[best]) {
        best := i;
      }
    }
  }

  // ---------------------------------------------------------------------
  // Properties of the records
  // ---------------------------------------------------------------------

  /** There is one title index: the sort's first element is determined. */
  lemma TitleIndexUnique(cs: seq<Candidate>, k1: int, k2: int)
    requires IsTitleIndex(cs, k1) && IsTitleIndex(cs, k2)
    ensures k1 == k2
  {
    var a, b := cs[k1], cs[k2];
    assert k1 < k2 ==> Precedes(b, a) && !Precedes(b, a);
    assert k2 < k1 ==> Precedes(a, b) && !Precedes(a, b);
  }

  /** The title candidate has the smallest `y` on the slide, the largest font
      among the candidates at that `y`, and is the first of those with its
      font. */
  lemma TitleIsTopmost(cs: seq<Candidate>)
    requires cs != []
    ensures var t := cs[TitleIndex(cs)];
      && (forall j :: 0 <= j < |cs| ==> t.y <= cs[j].y)
      && (forall j :: 0 <= j < |cs| && cs[j].y == t.y ==> cs[j].font <= t.font)
      && (forall j :: 0 <= j < TitleIndex(cs) ==> cs[j].y != t.y || cs[j].font != t.font)
  {
  }

  /** The title is "" exactly when no shape on the slide yields text;
      otherwise it is one of the slide's shape texts. */
  lemma TitleEmptyIff(slide: Slide)
    ensures Title(Candidates(slide)) == "" <==> Candidates(slide) == []
    ensures Candidates(slide) != [] ==> Title(Candidates(slide)) in TextsOf(Candidates(slide))
  {
  }

  /** The slide text is the non-empty shape texts joined by single spaces. */
  lemma SlideTextJoined(slide: Slide)
    ensures SlideText(slide) == JoinSpace(TextsOf(Candidates(slide)))
  {
    StripSpacedIsJoin(TextsOf(Candidates(slide)));
  }

  /** The candidates of two runs of shapes are those of each, in order. */
  lemma {:induction false} CandidatesAppend(a: Slide, b: Slide)
    ensures Candidates(a + b) == Candidates(a) + Candidates(b)
  {
    if b == [] {
      assert a + b == a;
    } else {
      var front := b[..|b| - 1];
      CandidatesAppend(a, front);
      assert (a + b)[..|a + b| - 1] == a + front;
      assert (a + b)[|a + b| - 1] == b[|b| - 1];
      ConcatAssoc(Candidates(a), Candidates(front),
        var t := ShapeText(b[|b| - 1].shape);
        if t != "" then [Candidate(Top(b[|b| - 1]), FontSize(b[|b| - 1].paragraphs), t)] else []);
    }
  }

  /** A shape whose text is not empty, wherever it stands on the slide, adds
      exactly one candidate in its place: its position (9999999 without a
      `top`), its font size and its text. */
  lemma CandidateOfShape(a: Slide, s: PlacedShape, b: Slide)
    requires ShapeText(s.shape) != ""
    ensures Candidates(a + [s] + b)
      == Candidates(a) + [Candidate(Top(s), FontSize(s.paragraphs), ShapeText(s.shape))] + Candidates(b)
    ensures s.top.None? ==> Candidates(a + [s] + b)[|Candidates(a)|].y == 9999999
  {
    CandidatesAppend(a + [s], b);
    assert (a + [s])[..|a|] == a;
  }

  /** A shape whose text is empty, wherever it stands on the slide, leaves no
      trace in the candidates or in the record. */
  lemma BlankShapesIgnored(a: Slide, s: PlacedShape, b: Slide, i: int)
    requires ShapeText(s.shape) == ""
    ensures Candidates(a + [s] + b) == Candidates(a + b)
    ensures RecordOf(i, a + [s] + b) == RecordOf(i, a + b)
  {
    BlankShapeAppend(a, s);
    CandidatesAppend(a + [s], b);
    CandidatesAppend(a, b);
  }

  /** A blank shape appended to a run of shapes adds no candidate. */
  lemma BlankShapeAppend(a: Slide, s: PlacedShape)
    requires ShapeText(s.shape) == ""
    ensures Candidates(a + [s]) == Candidates(a)
  {
    assert (a + [s])[..|a|] == a;
  }

  /** Two candidates at the same position: the larger font wins. */
  lemma LargerFontWins(a: Candidate, b: Candidate)
    requires a.y == b.y && a.font < b.font
    ensures Title([a, b]) == b.text
  {
    assert [a, b][..1] == [a];
  }

  /** Two candidates with the same key: the earlier shape wins (the sort is
      stable). */
  lemma TieKeepsShapeOrder(a: Candidate, b: Candidate)
    requires a.y == b.y && a.font == b.font
    ensures Title([a, b]) == a.text
  {
    assert [a, b][..1] == [a];
  }

  /** The worked example: two candidates at the top tie on position and the
      larger font wins; the lower one is not considered. */
  lemma TitleExample()
    ensures Title([Candidate(50, 12, "Overview"), Candidate(50, 18, "Q3 Results"),
                   Candidate(120, 24, "Footer")]) == "Q3 Results"
  {
    var cs := [Candidate(50, 12, "Overview"), Candidate(50, 18, "Q3 Results"), Candidate(120, 24, "Footer")];
    var k := TitleIndex(cs);
    assert k == 1 by {
      assert BestAmong(cs, 1, 3);
      TitleIndexUnique(cs, k, 1);
    }
  }

  /** A slide with no shapes still gets its record, with empty title and text. */
  lemma EmptySlide(i: int)
    ensures RecordOf(i, []) == SlideRecord(i + 1, "", "")
  {
  }
}
