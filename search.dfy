/** The case-insensitive keyword search over one deck (`search_pptx`), over a
    folder tree (`search_folder`), and the flattening of the folder results
    into table rows (`save_results_to_dataframe`). */
module Search {
  import opened Options
  import opened Strings
  import opened Paths
  import opened Slides

  /** One result row: "PPT Title", "PPT Slide No", "Visualization Title". */
  datatype Row = Row(pptTitle: string, slideNo: int, visualizationTitle: string)

  /** `key_lower in slide["text"].lower()`. */
  predicate Matches(keyword: string, record: SlideRecord)
    ensures Matches(keyword, record) ==> |keyword| <= |record.text|
    ensures keyword == "" ==> Matches(keyword, record)
  {
    Contains(Lower(record.text), Lower(keyword))
  }

  function RowOf(name: string, record: SlideRecord): Row {
    Row(name, record.slideNum, record.title)
  }

  /** The rows of the matching slides, in slide order. */
  function Hits(name: string, records: seq<SlideRecord>, keyword: string): seq<Row> {
    if records == [] then []
    else
      var last := records[|records| - 1];
      Hits(name, records[..|records| - 1], keyword)
      + (if Matches(keyword, last) then [RowOf(name, last)] else [])
  }

  /** The rows `search_pptx(file_path, keyword)` returns, the deck being the
      one stored at `file_path`. */
  function SearchSpec(filePath: string, deck: seq<Slide>, keyword: string): seq<Row> {
    Hits(Basename(filePath), Records(deck), keyword)
  }

  // ---------------------------------------------------------------------
  // search_pptx
  // ---------------------------------------------------------------------

  method SearchPptx(filePath: string, deck: seq<Slide>, keyword: string) returns (results: seq<Row>)
    ensures results == SearchSpec(filePath, deck, keyword)
  {
    var keyLower := Lower(keyword);
    var slidesData := ExtractTextFromPptx(deck);
    var name := Basename(filePath);
    results := [];
    for i := 0 to |slidesData|
      invariant results == Hits(name, slidesData[..i], keyword)
    {
      var slide := slidesData[i];
      HitsStep(name, slidesData, i, keyword);
      if Contains(Lower(slide.text), keyLower) {
        results := results + [Row(name, slide.slideNum, slide.title)];
      }
    }
    assert slidesData[..|slidesData|] == slidesData;
  }

  lemma HitsStep(name: string, records: seq<SlideRecord>, i: nat, keyword: string)
    requires i < |records|
    ensures Hits(name, records[..i + 1], keyword)
      == Hits(name, records[..i], keyword)
         + (if Contains(Lower(records[i].text), Lower(keyword)) then [RowOf(name, records[i])] else [])
  {
    assert records[..i + 1][..i] == records[..i];
    assert Matches(keyword, records[i]) == Contains(Lower(records[i].text), Lower(keyword));
  }

  /** A row is returned exactly for each slide whose lowercased text contains
      the lowercased keyword, and it carries that slide's number and title. */
  lemma {:induction false} HitsIff(name: string, records: seq<SlideRecord>, keyword: string, row: Row)
    ensures row in Hits(name, records, keyword)
      <==> exists i :: 0 <= i < |records| && Matches(keyword, records[i]) && row == RowOf(name, records[i])
  {
    if records != [] {
      var front := records[..|records| - 1];
      HitsIff(name, front, keyword, row);
      assert forall i :: 0 <= i < |front| ==> front[i] == records[i];
      if row in Hits(name, front, keyword) {
        var i :| 0 <= i < |front| && Matches(keyword, front[i]) && row == RowOf(name, front[i]);
        assert records[i] == front[i];
      }
    }
  }

  /** Every row names the file it came from. */
  lemma {:induction false} HitsTagged(name: string, records: seq<SlideRecord>, keyword: string)
    ensures forall k :: 0 <= k < |Hits(name, records, keyword)| ==> Hits(name, records, keyword)[k].pptTitle == name
  {
    if records != [] {
      HitsTagged(name, records[..|records| - 1], keyword);
    }
  }

  /** Rows keep slide order: with slides numbered increasingly, the slide
      numbers of the rows increase. */
  lemma {:induction false} HitsOrdered(name: string, records: seq<SlideRecord>, keyword: string)
    requires forall i, j :: 0 <= i < j < |records| ==> records[i].slideNum < records[j].slideNum
    ensures var hs := Hits(name, records, keyword);
      forall i, j :: 0 <= i < j < |hs| ==> hs[i].slideNo < hs[j].slideNo
  {
    if records != [] {
      var front := records[..|records| - 1];
      var last := records[|records| - 1];
      assert forall i :: 0 <= i < |front| ==> front[i] == records[i];
      HitsOrdered(name, front, keyword);
      var hs := Hits(name, front, keyword);
      forall k | 0 <= k < |hs| ensures hs[k].slideNo < last.slideNum {
        HitsIff(name, front, keyword, hs[k]);
        var i :| 0 <= i < |front| && Matches(keyword, front[i]) && hs[k] == RowOf(name, front[i]);
        assert front[i] == records[i];
      }
      var all := Hits(name, records, keyword);
      assert all == hs + (if Matches(keyword, last) then [RowOf(name, last)] else []);
      forall i, j | 0 <= i < j < |all| ensures all[i].slideNo < all[j].slideNo {
        assert all[i] == hs[i];
        if j < |hs| {
          assert all[j] == hs[j];
        } else {
          assert all[j] == RowOf(name, last);
        }
      }
    }
  }

  /** `search_pptx` numbers its rows by slide, in increasing order. */
  lemma SearchOrdered(filePath: string, deck: seq<Slide>, keyword: string)
    ensures var hs := SearchSpec(filePath, deck, keyword);
      forall i, j :: 0 <= i < j < |hs| ==> hs[i].slideNo < hs[j].slideNo
  {
    RecordsNumbered(deck);
    HitsOrdered(Basename(filePath), Records(deck), keyword);
    assert SearchSpec(filePath, deck, keyword) == Hits(Basename(filePath), Records(deck), keyword);
  }

  lemma RecordsNumbered(deck: seq<Slide>)
    ensures forall i, j :: 0 <= i < j < |deck| ==> Records(deck)[i].slideNum < Records(deck)[j].slideNum
  {
    var records := Records(deck);
    forall i, j | 0 <= i < j < |records| ensures records[i].slideNum < records[j].slideNum {
      RecordsAt(deck, i);
      RecordsAt(deck, j);
    }
  }

  /** The search ignores the case of the keyword. */
  lemma KeywordCaseIgnored(keyword: string, record: SlideRecord)
    ensures Matches(Lower(keyword), record) == Matches(keyword, record)
  {
    LowerIdempotent(keyword);
  }

  /** A match is an occurrence of the lowercased keyword in the lowercased
      text. */
  lemma MatchesIff(keyword: string, record: SlideRecord)
    ensures Matches(keyword, record) ==> exists i :: OccursAt(Lower(record.text), Lower(keyword), i)
    ensures (exists i :: OccursAt(Lower(record.text), Lower(keyword), i)) ==> Matches(keyword, record)
  {
    ContainsIff(Lower(record.text), Lower(keyword));
  }

  /** A slide with empty text never matches a non-empty keyword; the empty
      keyword matches every slide. */
  lemma EmptyTextOrKeyword(keyword: string, record: SlideRecord)
    ensures record.text == "" && keyword != "" ==> !Matches(keyword, record)
    ensures Matches("", record)
  {
  }

  // ---------------------------------------------------------------------
  // search_folder
  // ---------------------------------------------------------------------

  /** One step of `os.walk`: a directory and the names of the files in it. */
  datatype WalkStep = WalkStep(root: string, files: seq<string>)

  /** The directory name that marks the tool's own output. */
  const OutputFolder := "OUTPUT RESULT"

  /** `f.lower().endswith(".pptx")`: the last five characters, in any letter
      case, are ".pptx". */
  predicate IsPptx(name: string)
    ensures IsPptx(name) <==> |name| >= 5 && Lower(name[|name| - 5..]) == ".pptx"
  {
    LowerSuffix(name, 5);
    EndsWith(Lower(name), ".pptx")
  }

  /** The `.pptx` files of one directory, joined to its path. */
  function PptIn(root: string, files: seq<string>): seq<string> {
    if files == [] then []
    else
      var f := files[|files| - 1];
      PptIn(root, files[..|files| - 1]) + (if IsPptx(f) then [Join(root, f)] else [])
  }

  /** `ppt_files`: walk order, directories whose path contains the output
      folder's name skipped. */
  function PptFiles(walk: seq<WalkStep>): seq<string> {
    if walk == [] then []
    else
      var step := walk[|walk| - 1];
      PptFiles(walk[..|walk| - 1]) + (if Contains(step.root, OutputFolder) then [] else PptIn(step.root, step.files))
  }

  /** One entry of the result dictionary. */
  datatype Entry = Entry(name: string, rows: seq<Row>)

  /** A dictionary as its entries in insertion order. */
  type Dict = seq<Entry>

  predicate DistinctNames(d: Dict) {
    forall i, j :: 0 <= i < j < |d| ==> d[i].name != d[j].name
  }

  function Lookup(d: Dict, name: string): Option<seq<Row>> {
    if d == [] then None
    else if d[0].name == name then Some(d[0].rows)
    else Lookup(d[1..], name)
  }

  /** `d[name] = rows`: an existing entry is replaced where it stands, a new
      one goes last. */
  function Put(d: Dict, name: string, rows: seq<Row>): (r: Dict)
    ensures Lookup(r, name) == Some(rows)
    ensures forall other :: other != name ==> Lookup(r, other) == Lookup(d, other)
  {
    if d == [] then [Entry(name, rows)]
    else if d[0].name == name then [Entry(name, rows)] + d[1..]
    else
      var rest := Put(d[1..], name, rows);
      assert ([d[0]] + rest)[1..] == rest;
      [d[0]] + rest
  }

  function Names(d: Dict): seq<string> {
    if d == [] then [] else [d[0].name] + Names(d[1..])
  }

  /** `results` after the loop over `ppt_files`: the rows of every file with at
      least one hit, under the file's basename. */
  function FolderResults(paths: seq<string>, decks: string -> seq<Slide>, keyword: string): Dict {
    if paths == [] then []
    else
      var path := paths[|paths| - 1];
      var before := FolderResults(paths[..|paths| - 1], decks, keyword);
      var slides := SearchSpec(path, decks(path), keyword);
      if slides != [] then Put(before, Basename(path), slides) else before
  }

  /** `search_folder(folder_path, keyword)`, with `walk` the output of
      `os.walk(folder_path)` and `decks` the deck stored at each path. */
  method SearchFolder(walk: seq<WalkStep>, keyword: string, decks: string -> seq<Slide>) returns (results: Dict)
    ensures results == FolderResults(PptFiles(walk), decks, keyword)
  {
    var pptFiles := CollectPptFiles(walk);
    results := [];
    for k := 0 to |pptFiles|
      invariant results == FolderResults(pptFiles[..k], decks, keyword)
    {
      var filePath := pptFiles[k];
      FolderStep(pptFiles, k, decks, keyword);
      var slides := SearchPptx(filePath, decks(filePath), keyword);
      if slides != [] {
        results := Put(results, Basename(filePath), slides);
      }
    }
    assert pptFiles[..|pptFiles|] == pptFiles;
  }

  lemma FolderStep(paths: seq<string>, k: nat, decks: string -> seq<Slide>, keyword: string)
    requires k < |paths|
    ensures var slides := SearchSpec(paths[k], decks(paths[k]), keyword);
      var before := FolderResults(paths[..k], decks, keyword);
      FolderResults(paths[..k + 1], decks, keyword)
      == if slides != [] then Put(before, Basename(paths[k]), slides) else before
  {
    assert paths[..k + 1][..k] == paths[..k];
  }

  /** The first loop of `search_folder`: the `.pptx` paths, in walk order. */
  method CollectPptFiles(walk: seq<WalkStep>) returns (pptFiles: seq<string>)
    ensures pptFiles == PptFiles(walk)
  {
    pptFiles := [];
    for w := 0 to |walk|
      invariant pptFiles == PptFiles(walk[..w])
    {
      var root, files := walk[w].root, walk[w].files;
      assert walk[..w + 1][..w] == walk[..w];
      if Contains(root, OutputFolder) {
        assert pptFiles + [] == pptFiles;
        continue;
      }
      ghost var before := pptFiles;
      for i := 0 to |files|
        invariant pptFiles == before + PptIn(root, files[..i])
      {
        assert files[..i + 1][..i] == files[..i];
        if EndsWith(Lower(files[i]), ".pptx") {
          pptFiles := pptFiles + [Join(root, files[i])];
        }
      }
      assert files[..|files|] == files;
    }
    assert walk[..|walk|] == walk;
  }

  /** The entry for a name holds the rows of the last file with that basename
      that has hits: a later file with the same name overwrites an earlier
      one, and files without hits are never entered. */
  function LastHits(paths: seq<string>, decks: string -> seq<Slide>, keyword: string, name: string): Option<seq<Row>> {
    if paths == [] then None
    else
      var path := paths[|paths| - 1];
      var slides := SearchSpec(path, decks(path), keyword);
      if Basename(path) == name && slides != [] then Some(slides)
      else LastHits(paths[..|paths| - 1], decks, keyword, name)
  }

  lemma {:induction false} FolderLookup(paths: seq<string>, decks: string -> seq<Slide>, keyword: string, name: string)
    ensures Lookup(FolderResults(paths, decks, keyword), name) == LastHits(paths, decks, keyword, name)
  {
    if paths != [] {
      FolderLookup(paths[..|paths| - 1], decks, keyword, name);
    }
  }

  /** Putting keeps the order of the names when the name is already
      present, and appends the name otherwise. */
  lemma {:induction false} PutNames(d: Dict, name: string, rows: seq<Row>)
    ensures name in Names(d) ==> Names(Put(d, name, rows)) == Names(d)
    ensures name !in Names(d) ==> Names(Put(d, name, rows)) == Names(d) + [name]
  {
    if d != [] && d[0].name != name {
      var rest := d[1..];
      PutNames(rest, name, rows);
      var r := Put(d, name, rows);
      assert r[1..] == Put(rest, name, rows);
      assert Names(d) == [d[0].name] + Names(rest);
      assert Names(r) == [d[0].name] + Names(Put(rest, name, rows));
    } else if d != [] {
      assert Put(d, name, rows)[1..] == d[1..];
    }
  }

  /** Putting keeps the names distinct. */
  lemma PutDistinct(d: Dict, name: string, rows: seq<Row>)
    requires DistinctNames(d)
    ensures DistinctNames(Put(d, name, rows))
  {
    var r := Put(d, name, rows);
    PutNames(d, name, rows);
    NamesIn(d);
    NamesIn(r);
    forall i, j | 0 <= i < j < |r| ensures r[i].name != r[j].name {
      assert r[i].name == Names(r)[i] && r[j].name == Names(r)[j];
      if j < |d| {
        assert Names(r)[i] == Names(d)[i] && Names(r)[j] == Names(d)[j];
      } else {
        assert Names(r)[i] == Names(d)[i];
      }
    }
  }

  lemma {:induction false} NamesIn(d: Dict)
    ensures |Names(d)| == |d|
    ensures forall k :: 0 <= k < |d| ==> Names(d)[k] == d[k].name
    ensures forall n :: n in Names(d) <==> exists k :: 0 <= k < |d| && d[k].name == n
  {
    if d != [] {
      NamesIn(d[1..]);
      forall n | n in Names(d) ensures exists k :: 0 <= k < |d| && d[k].name == n {
        if n != d[0].name {
          var k :| 0 <= k < |d[1..]| && d[1..][k].name == n;
          assert d[k + 1].name == n;
        }
      }
      forall n | (exists k :: 0 <= k < |d| && d[k].name == n) ensures n in Names(d) {
        var k :| 0 <= k < |d| && d[k].name == n;
        if k > 0 {
          assert d[1..][k - 1].name == n;
        }
      }
    }
  }

  /** An entry holds at least one row, and every row names the entry's file. */
  predicate EntryOk(e: Entry) {
    e.rows != [] && forall m :: 0 <= m < |e.rows| ==> e.rows[m].pptTitle == e.name
  }

  /** Every entry is well formed and no name is entered twice. */
  predicate WellFormed(d: Dict) {
    DistinctNames(d) && forall k :: 0 <= k < |d| ==> EntryOk(d[k])
  }

  lemma PutWellFormed(d: Dict, name: string, rows: seq<Row>)
    requires WellFormed(d) && EntryOk(Entry(name, rows))
    ensures WellFormed(Put(d, name, rows))
  {
    PutDistinct(d, name, rows);
    PutEntries(d, name, rows);
  }

  /** The folder search yields a well-formed dictionary. */
  lemma {:induction false} FolderWellFormed(paths: seq<string>, decks: string -> seq<Slide>, keyword: string)
    ensures WellFormed(FolderResults(paths, decks, keyword))
  {
    if paths != [] {
      var path := paths[|paths| - 1];
      var before := FolderResults(paths[..|paths| - 1], decks, keyword);
      FolderWellFormed(paths[..|paths| - 1], decks, keyword);
      var slides := SearchSpec(path, decks(path), keyword);
      if slides != [] {
        HitsTagged(Basename(path), Records(decks(path)), keyword);
        PutWellFormed(before, Basename(path), slides);
      }
    }
  }

  /** Every entry after a put is an old entry or the new one. */
  lemma {:induction false} PutEntries(d: Dict, name: string, rows: seq<Row>)
    ensures forall k :: 0 <= k < |Put(d, name, rows)| ==>
      Put(d, name, rows)[k] == Entry(name, rows) || Put(d, name, rows)[k] in d
  {
    if d != [] && d[0].name != name {
      PutEntries(d[1..], name, rows);
      var r := Put(d, name, rows);
      forall k | 0 <= k < |r| ensures r[k] == Entry(name, rows) || r[k] in d {
        if k > 0 {
          assert r[k] == Put(d[1..], name, rows)[k - 1];
          assert forall e :: e in d[1..] ==> e in d;
        }
      }
    }
  }

  /** A file without hits never appears; one with hits appears under its
      basename unless a later file with the same basename has hits. */
  lemma FolderOverwrites(paths: seq<string>, decks: string -> seq<Slide>, keyword: string)
    requires paths != []
    ensures var path := paths[|paths| - 1];
      var slides := SearchSpec(path, decks(path), keyword);
      slides != [] ==> Lookup(FolderResults(paths, decks, keyword), Basename(path)) == Some(slides)
  {
    FolderLookup(paths, decks, keyword, Basename(paths[|paths| - 1]));
  }

  /** File `j` of walk step `i` is a `.pptx` file outside the output folder,
      and `path` is its path. */
  predicate Found(walk: seq<WalkStep>, i: int, j: int, path: string) {
    && 0 <= i < |walk| && !Contains(walk[i].root, OutputFolder)
    && 0 <= j < |walk[i].files| && IsPptx(walk[i].files[j])
    && path == Join(walk[i].root, walk[i].files[j])
  }

  /** Every file searched is a `.pptx` file (in any letter case) of a
      directory whose path does not contain the output folder's name. */
  lemma {:induction false} PptFilesSound(walk: seq<WalkStep>, path: string) returns (i: int, j: int)
    requires path in PptFiles(walk)
    ensures Found(walk, i, j, path)
  {
    var front := walk[..|walk| - 1];
    var step := walk[|walk| - 1];
    if path in PptFiles(front) {
      i, j := PptFilesSound(front, path);
      assert walk[i] == front[i];
    } else {
      i := |walk| - 1;
      j := PptInSound(step.root, step.files, path);
    }
  }

  /** Every such file is searched. */
  lemma {:induction false} PptFilesComplete(walk: seq<WalkStep>, i: int, j: int, path: string)
    requires Found(walk, i, j, path)
    ensures path in PptFiles(walk)
  {
    var front := walk[..|walk| - 1];
    if i < |front| {
      assert walk[i] == front[i];
      PptFilesComplete(front, i, j, path);
    } else {
      PptInComplete(walk[i].root, walk[i].files, j);
    }
  }

  lemma {:induction false} PptInSound(root: string, files: seq<string>, path: string) returns (j: int)
    requires path in PptIn(root, files)
    ensures 0 <= j < |files| && IsPptx(files[j]) && path == Join(root, files[j])
  {
    var front := files[..|files| - 1];
    if path in PptIn(root, front) {
      j := PptInSound(root, front, path);
      assert files[j] == front[j];
    } else {
      j := |files| - 1;
    }
  }

  lemma {:induction false} PptInComplete(root: string, files: seq<string>, j: int)
    requires 0 <= j < |files| && IsPptx(files[j])
    ensures Join(root, files[j]) in PptIn(root, files)
  {
    var front := files[..|files| - 1];
    if j < |front| {
      assert files[j] == front[j];
      PptInComplete(root, front, j);
    }
  }

  /** A file found by the walk is searched, and its path's basename, the key
      it is entered under, is its own file name. */
  lemma EnteredUnderFileName(walk: seq<WalkStep>, i: int, j: int, path: string)
    requires Found(walk, i, j, path) && NoSlash(walk[i].files[j])
    ensures path in PptFiles(walk)
    ensures Basename(path) == walk[i].files[j]
  {
    PptFilesComplete(walk, i, j, path);
    BasenameOfJoin(walk[i].root, walk[i].files[j]);
  }

  // ---------------------------------------------------------------------
  // save_results_to_dataframe
  // ---------------------------------------------------------------------

  /** The rows of every entry, entry by entry, in dictionary order. */
  function AllRows(d: Dict): seq<Row> {
    if d == [] then [] else d[0].rows + AllRows(d[1..])
  }

  /** `save_results_to_dataframe`: the rows that become the table, before
      they are handed to the table constructor. */
  method FlattenResults(searchResults: Dict) returns (data: seq<Row>)
    ensures data == AllRows(searchResults)
  {
    data := [];
    for e := 0 to |searchResults|
      invariant data == AllRows(searchResults[..e])
    {
      var slides := searchResults[e].rows;
      AllRowsSnoc(searchResults[..e], searchResults[e]);
      assert searchResults[..e + 1] == searchResults[..e] + [searchResults[e]];
      ghost var before := data;
      for s := 0 to |slides|
        invariant data == before + slides[..s]
      {
        assert slides[..s + 1] == slides[..s] + [slides[s]];
        data := data + [slides[s]];
      }
      assert slides[..|slides|] == slides;
    }
    assert searchResults[..|searchResults|] == searchResults;
  }

  /** One more entry adds its rows at the end. */
  lemma {:induction false} AllRowsSnoc(d: Dict, last: Entry)
    ensures AllRows(d + [last]) == AllRows(d) + last.rows
  {
    if d == [] {
      assert AllRows([last]) == last.rows + AllRows([]);
    } else {
      AllRowsSnoc(d[1..], last);
      assert (d + [last])[0] == d[0] && (d + [last])[1..] == d[1..] + [last];
      ConcatAssoc(d[0].rows, AllRows(d[1..]), last.rows);
    }
  }

  /** The rows naming one file, in order. */
  function RowsNamed(rows: seq<Row>, name: string): seq<Row> {
    if rows == [] then []
    else Named(rows[0], name) + RowsNamed(rows[1..], name)
  }

  /** `row` alone if it names the file `name`, nothing otherwise. */
  function Named(row: Row, name: string): seq<Row> {
    if row.pptTitle == name then [row] else []
  }

  /** Flattening loses nothing: in a well-formed result, the rows naming a
      file are exactly that file's entry. */
  lemma {:induction false} FlattenRecovers(d: Dict, name: string)
    requires WellFormed(d)
    ensures RowsNamed(AllRows(d), name) == if Lookup(d, name).Some? then Lookup(d, name).value else []
  {
    if d != [] {
      var rest := d[1..];
      assert WellFormed(rest) by {
        forall i, j | 0 <= i < j < |rest| ensures rest[i].name != rest[j].name {
          assert rest[i] == d[i + 1] && rest[j] == d[j + 1];
        }
        forall k | 0 <= k < |rest| ensures EntryOk(rest[k]) {
          assert rest[k] == d[k + 1];
        }
      }
      FlattenRecovers(rest, name);
      RowsNamedAppend(d[0].rows, AllRows(rest), name);
      RowsNamedAll(d[0].rows, d[0].name, name);
      if d[0].name == name {
        LookupAbsent(rest, name, d);
      }
    }
  }

  /** The head's name does not occur further on. */
  lemma LookupAbsent(rest: Dict, name: string, d: Dict)
    requires DistinctNames(d) && d != [] && rest == d[1..] && d[0].name == name
    ensures Lookup(rest, name) == None
  {
    LookupFound(rest, name);
    forall k | 0 <= k < |rest| ensures rest[k].name != name {
      assert rest[k] == d[k + 1];
    }
  }

  lemma {:induction false} LookupFound(d: Dict, name: string)
    ensures Lookup(d, name).Some? ==> exists k :: 0 <= k < |d| && d[k].name == name
  {
    if d != [] && d[0].name != name {
      LookupFound(d[1..], name);
      if Lookup(d, name).Some? {
        var k :| 0 <= k < |d[1..]| && d[1..][k].name == name;
        assert d[k + 1].name == name;
      }
    }
  }

  lemma {:induction false} RowsNamedAppend(a: seq<Row>, b: seq<Row>, name: string)
    ensures RowsNamed(a + b, name) == RowsNamed(a, name) + RowsNamed(b, name)
  {
    if a == [] {
      assert a + b == b;
      assert RowsNamed(a, name) == [];
    } else {
      RowsNamedAppend(a[1..], b, name);
      RowsNamedHead(a, b, name);
      ConcatAssoc(Named(a[0], name), RowsNamed(a[1..], name), RowsNamed(b, name));
    }
  }

  lemma RowsNamedHead(a: seq<Row>, b: seq<Row>, name: string)
    requires a != []
    ensures RowsNamed(a + b, name) == Named(a[0], name) + RowsNamed(a[1..] + b, name)
  {
    assert (a + b)[0] == a[0] && (a + b)[1..] == a[1..] + b;
  }

  /** Rows that all name `owner` are all kept for `owner` and all dropped for
      any other name. */
  lemma {:induction false} RowsNamedAll(rows: seq<Row>, owner: string, name: string)
    requires forall m :: 0 <= m < |rows| ==> rows[m].pptTitle == owner
    ensures RowsNamed(rows, name) == if owner == name then rows else []
  {
    if rows != [] {
      RowsNamedAll(rows[1..], owner, name);
    }
  }
}
