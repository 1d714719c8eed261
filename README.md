# PPT keyword search: a verified model of the extraction and search engine

This project models, in Dafny, the engine behind `app.py`, a tool that
searches a folder of PowerPoint decks for a keyword. The engine has four parts:

- **Text extraction from one shape** (`extract_text_recursive`). A group is
  walked recursively. A table gives its cells in row-major order. A chart gives
  its title, its axis titles, its legend entries and its data labels. A text
  shape gives its text. Each fragment is stripped and followed by one space, and
  the whole result is stripped again.
- **Slide aggregation** (`extract_text_from_pptx` once the deck is open). It
  produces one record per slide with the slide number, an inferred title and
  the slide text. The title is the first candidate after a stable sort on
  `(top, -largest font size)`.
- **Keyword search in one deck** (`search_pptx`). This is a case-insensitive
  substring test on each slide's text.
- **Folder search** (`search_folder`) and **flattening the results into rows**
  (`save_results_to_dataframe`). The folder search keeps only files whose
  lowercased name ends in `.pptx`. It skips every directory whose path
  contains the text `OUTPUT RESULT`, a case-sensitive substring test on the
  whole path (app.py:146). So every subdirectory of such a directory is
  skipped too, and so is the whole walk when the chosen folder's own path
  contains that text. Each deck with hits is filed under its basename in a
  dictionary.

The document model of the presentation library becomes a closed datatype. A
shape is one of `Group`, `Table`, `Chart`, `Text` or `Other`, so the source's
order of tests (group, then table, then chart, then text) holds by
construction.

Each read of a table cell, a chart part or a run's font size that can raise
is a `Probe`, which is either `Ok(value)` or `Malformed`. The source catches
those exceptions but keeps the text built so far. The model does the same: a
`Malformed` read ends the accumulation at that point and keeps the prefix
(`Shapes.Kept`).

The imperative code is modelled by methods with loops:

- `Shapes.ExtractTextRecursive`
- `Slides.ExtractTextFromPptx` and `Slides.MaxRunSize`
- `Search.SearchPptx`, `Search.SearchFolder` and `Search.FlattenResults`

Each of these methods is proved equal to a specification function
(`Shapes.ShapeText`, `Slides.Records`, `Search.SearchSpec`, …), and lemmas
state the properties of those functions.

Modules:

- `Options`: `Option`, `Probe`, and the index of the first read that raises.
- `Strings`:
  - Python's `str.strip()`, using the 29 characters `str.isspace()` accepts;
  - `str.lower()` on ASCII letters;
  - the `in` substring test and `str.endswith`;
  - the "fragment plus one space" accumulation.
- `Shapes`: shapes, chart parts, and the extractor.
- `Slides`: placed shapes, run font sizes, title candidates and slide records.
- `Paths`: `os.path.basename` and two-argument `os.path.join`, POSIX flavour.
- `Search`: result rows, the deck search, the folder search with its
  insertion-ordered dictionary, and the flattening.

Behaviour of app.py worth noting:

- A read that raises ends the text of the shape being extracted, that is the
  innermost `extract_text_recursive` call, and keeps the prefix that call has
  built. Each call has its own `try` around its whole branch (app.py:20,
  71-74). An enclosing group goes on with its next child (app.py:23-24).
- A chart title, an axis title or a data label that is present but blank
  still adds its stripped text and a space. Only legend entries are tested for
  blankness (app.py:37-38, 43-44, 48-49, 62-63 against 53-55).
- Matching is the substring test `key_lower in slide["text"].lower()` alone
  (app.py:131).

## Model

| member | source | states |
|---|---|---|
| Options.FirstMalformed | app.py:20-72 | the number of reads kept before an exception: every read before it succeeds, and the read at it raises (or the reads end) |
| Options.FirstMalformedAt | app.py:20-72 | the stopping point is unique: any index with successful reads before it and a raising read (or the end) at it is the stopping point |
| Strings.Strip | app.py:74 | `str.strip()`: the result has no leading or trailing whitespace and is no longer than the input |
| Strings.StripPadded | app.py:74 | strip removes exactly the surrounding whitespace: a stripped string padded with whitespace on both sides comes back unchanged |
| Strings.StripBlank | app.py:68 | strip gives "" exactly when the string is all whitespace, so a blank text shape adds nothing |
| Strings.StripSpacedIsJoin | app.py:24 | fragments accumulated as "fragment plus one space" and then stripped equal the fragments joined by single spaces, when none is empty |
| Strings.Lower | app.py:126 | lowercasing keeps the length and maps each character through the ASCII lowercase map |
| Strings.LowerIdempotent | app.py:126 | lowercasing twice is lowercasing once |
| Strings.ContainsIff | app.py:131 | `needle in hay` holds exactly when the needle occurs at some index of the haystack (both directions) |
| Strings.Contains | app.py:131 | `needle in hay`: the empty needle is in every string, a needle longer than the haystack never is, and one of the same length is in it only when equal |
| Strings.EndsWith | app.py:149 | `s.endswith(suffix)`: the empty suffix always holds, and when it holds `s` is some prefix followed by the suffix |
| Shapes.ShapeText | app.py:74 | every extraction result has no leading or trailing whitespace |
| Shapes.ExtractTextRecursive | app.py:16-74 | the accumulating, recursive extractor returns `ShapeText(shape)` for every shape |
| Shapes.TableRaw | app.py:27-30 | the row-by-row loop accumulates exactly the table's kept cell texts, and stops at the first cell that raises |
| Shapes.RowRaw | app.py:29-30 | the cell loop of one row accumulates the kept cell texts and reports exactly whether a cell raised |
| Shapes.ChartRaw | app.py:33-65 | the chart branch accumulates title, axis titles, legend entries and data labels in that order, and stops at the first read that raises |
| Shapes.StrippedRaw | app.py:37-49 | each present title (or data label) adds its stripped text and a space; the loop reports exactly whether a read raised |
| Shapes.LegendRaw | app.py:51-55 | legend entries add their stripped text and a space unless blank; the loop reports exactly whether a read raised |
| Shapes.LabelsRaw | app.py:58-65 | series by series and point by point, the data labels of series that show them, stopping at the first read that raises |
| Shapes.PlainText | app.py:68-69 | a text shape yields its stripped text, and a whitespace-only one yields "" |
| Shapes.GroupOfOne | app.py:22-24 | a group holding one shape yields that shape's text |
| Shapes.GroupOfNonBlank | app.py:22-24 | a group whose children all yield text gives those texts, in child order, joined by single spaces |
| Shapes.GroupBlankChild | app.py:22-24 | a child yielding "" still adds its space, so text, blank shape, text gives two spaces between the texts |
| Shapes.InnerFailureStaysInside | app.py:20-24 | a read that raises inside a grouped shape ends only that shape's text: a table whose first cell raises yields "", and the group goes on with its next child |
| Shapes.TableInOrder | app.py:27-30 | a readable table gives every cell's stripped text, row-major, each followed by a space (blank cells too), then stripped |
| Shapes.TableStopsAtMalformedCell | app.py:20-30 | a cell that raises ends the table's text: the result equals that of the table cut just before that cell |
| Shapes.ChartInOrder | app.py:33-63 | a readable chart gives title, category-axis title, value-axis title, non-blank legend entries and then data labels (series order, point order) |
| Shapes.ChartKeepsPrefix | app.py:33-65 | whatever raises, a chart's accumulated text is a prefix of the text it gives when every read succeeds |
| Shapes.EmptyChart | app.py:33-63 | a chart with no title, no axis titles, no legend and no data labels yields "" |
| Slides.MaxSizeIsMax | app.py:98-101 | the `max` fold is 0 or the largest set, non-zero run size, and at least every such size |
| Slides.FontSize | app.py:94-103 | the font size of a shape is never negative; `Slides.FontSizeIsMax` states which size it is |
| Slides.FontSizeIsMax | app.py:95-103 | a shape's font size is the largest sized run before the first read that raises, or 0 if there is none |
| Slides.MaxRunSize | app.py:95-103 | the nested paragraph and run loop computes `FontSize`, leaving both loops at a run that raises |
| Slides.Candidates | app.py:89-105 | title candidates are the shapes with non-empty extracted text, in shape order, each with stripped non-empty text |
| Slides.CandidateOfShape | app.py:89-105 | a shape with non-empty text, at any position, adds exactly one candidate in its place, carrying its `top` (9999999 when it has none, the `getattr` default at app.py:93), its font size and its text |
| Slides.TitleIndex | app.py:107-110 | the chosen index strictly precedes every earlier candidate under the key `(y, -font)`, and no later candidate precedes it |
| Slides.Title | app.py:107-110 | the title is "" when there are no candidates, and otherwise the text of the candidate a stable sort by `(y, -font)` puts first |
| Slides.ChooseTitle | app.py:107-110 | the one-pass scan finds the title index: the first element of the stable sort |
| Slides.TitleIndexUnique | app.py:109-110 | at most one index meets the title condition, so the sort's first element is determined |
| Slides.TitleIsTopmost | app.py:109-110 | the title has the smallest `y`, the largest font at that `y`, and no earlier candidate has the same key |
| Slides.TitleEmptyIff | app.py:107-110 | the title is "" exactly when there are no candidates, and otherwise it is one of the candidate texts |
| Slides.LargerFontWins | app.py:109 | of two candidates at the same `y`, the one with the larger font is the title |
| Slides.TieKeepsShapeOrder | app.py:109-110 | of two candidates with equal keys, the earlier shape is the title (the sort is stable) |
| Slides.TitleExample | app.py:107-110 | with "Overview" (50, 12), "Q3 Results" (50, 18) and "Footer" (120, 24), the title is "Q3 Results" |
| Slides.SlideTextJoined | app.py:91-115 | the slide text is the non-empty shape texts joined by single spaces |
| Slides.BlankShapesIgnored | app.py:89-90 | a shape with empty text, at any position on the slide, changes neither the candidates nor the record |
| Slides.Records | app.py:85-116 | one record per slide, in document order, the record at index `i` numbered `i + 1` |
| Slides.ReadSlide | app.py:86-116 | the loop over one slide's shapes and the title choice give that slide's record |
| Slides.ExtractTextFromPptx | app.py:80-118 | the loop over slides returns `Records(deck)` |
| Slides.EmptySlide | app.py:112-116 | a slide without shapes still gets its record, with empty title and text |
| Paths.Basename | app.py:133 | the basename has no '/', is a suffix of the path, and is preceded by '/' when shorter than the path |
| Paths.BasenameOfJoin | app.py:150-155 | the basename of a directory joined with a file name is the file name |
| Paths.Join | app.py:150 | `os.path.join(a, b)`: `b` always ends the result; an absolute `b` (leading '/') replaces `a`; otherwise the result is `a + b` when `a` is empty or ends with '/', and `a`, one '/', then `b` otherwise |
| Search.SearchPptx | app.py:124-137 | the loop over slide records returns `SearchSpec`: a row for each matching slide, in slide order |
| Search.HitsIff | app.py:130-136 | a row is returned exactly when it is the row of a slide whose lowercased text contains the lowercased keyword (both directions) |
| Search.HitsTagged | app.py:133 | every row carries the deck's basename |
| Search.HitsOrdered | app.py:130-136 | rows keep slide order: with increasing slide numbers, the rows' slide numbers increase |
| Search.SearchOrdered | app.py:124-137 | the rows of one deck have strictly increasing slide numbers |
| Search.KeywordCaseIgnored | app.py:126 | searching for the lowercased keyword matches the same slides as searching for the keyword |
| Search.MatchesIff | app.py:131 | a slide matches exactly when the lowercased keyword occurs at some index of the lowercased text |
| Search.Matches | app.py:131 | a slide can match only a keyword no longer than its text, and the empty keyword matches every slide |
| Search.EmptyTextOrKeyword | app.py:131 | a slide with empty text never matches a non-empty keyword, and the empty keyword matches every slide |
| Search.CollectPptFiles | app.py:145-150 | the walk loop collects `PptFiles(walk)`: the joined `.pptx` paths in walk order, output folder skipped |
| Search.PptFilesSound | app.py:145-150 | every collected path is the join of a `.pptx` file (any letter case) and a directory whose path does not contain "OUTPUT RESULT" |
| Search.IsPptx | app.py:149 | a file is searched exactly when its last five characters, lowercased, are ".pptx" |
| Search.PptFilesComplete | app.py:145-150 | every such file is collected |
| Search.Put | app.py:155 | after `d[name] = rows`, looking up `name` gives `rows` and every other name is unchanged |
| Search.PutNames | app.py:155 | assigning an existing key keeps the key order, and a new key goes last |
| Search.PutDistinct | app.py:155 | assignment keeps the keys distinct |
| Search.SearchFolder | app.py:140-156 | the two loops return `FolderResults` of the collected files |
| Search.FolderLookup | app.py:152-155 | the entry for a name holds the rows of the last file with that basename that has hits, and files without hits are never entered |
| Search.FolderOverwrites | app.py:152-155 | a later file with hits replaces any earlier entry under the same basename |
| Search.FolderWellFormed | app.py:152-155 | keys are distinct, every entry holds at least one row, and every row names its entry's file |
| Search.EnteredUnderFileName | app.py:145-155 | a `.pptx` file the walk finds outside the output folder is searched, and the key it is entered under (its path's basename) is its own file name |
| Search.FlattenResults | app.py:207-211 | the nested loop produces `AllRows`: the rows of every entry, entry by entry, in dictionary order |
| Search.FlattenRecovers | app.py:208-211 | for well-formed results, the flattened rows that name a file are exactly that file's entry |

## Left out

- Opening a deck (`Presentation(file_path)`, app.py:82) is left out. The deck
  is an input. In the source, a deck that fails to open raises out of
  `search_pptx` and `search_folder` and ends the whole folder search, since
  nothing around app.py:153 catches it. The model has no such failure.
- Shapes.ExtractTextRecursive: a group's children are a plain sequence of
  shapes, so an exception raised while reading `shape.shapes` itself or
  partway through iterating it (app.py:23) is not modelled. Only table
  cells, chart parts and run font sizes can raise in the model.
- The python-pptx attribute probing (`shape_type`, `has_table`, `has_chart`,
  `text`, `has_category_axis`, …) is replaced by the closed `Shape` datatype.
- Whether a given library read raises is an input. Each such read is a
  `Probe`, so the model covers both outcomes. This includes attributes the
  library might not provide: a chart whose axis reads raise keeps only its
  title.
- The directory traversal `os.walk` (app.py:145) is filesystem I/O. Its
  output is an input sequence of (directory, file names) steps.
- The deck stored at each path is an input function from path to deck.
- `clean_output_folder`, `save_results_to_excel`, the widgets, the button
  callbacks, the printed messages and the module-level globals are left out.
  They are I/O or UI (app.py:162-295).
- The check that the folder path and keyword are not blank is left out. It
  sits in the UI callback (app.py:239-250), not in the search functions, which
  accept any keyword.
- The pandas table constructor is left out. `Search.FlattenResults` models
  the rows handed to it (app.py:212).
- Strings.Lower: only ASCII letters are lowercased. Python's full Unicode case
  mapping (including the characters whose lowercase form is longer) is not
  modelled.
- Slides.FontSize: run sizes are integers in the library's length unit, not
  floating-point points. Points are a fixed positive multiple of that unit, so
  `max` and the sort order are the same.
- Slides.Top: a `top` attribute that is present but `None` is not modelled.
  `None` in the model means the attribute is missing, which gives 9999999.
  In the source, a `None` top among numeric tops makes the sort at app.py:109
  raise `TypeError`, which nothing catches.
- Shapes.ChartInOrder: the full order is stated for charts whose reads all
  succeed. When a read raises, `Shapes.ChartKeepsPrefix` gives only that the
  text is a prefix of that order. The exact prefix is what `Shapes.ChartRaw`
  computes.
- Pictures and any image or OCR handling are not in the code, so they are not
  modelled.
