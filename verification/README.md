# Discogs record labels, modelled in Dafny

`generate_labels.py` turns a Discogs CSV export into a PDF sheet of stickers.
Each label has two parts: a QR code that points at the record's Discogs page, and a
short block of text. The labels are laid out in a grid that matches a physical label
sheet. This project models the script's decision-making core and proves properties of it:

- **Profile resolution** (`config.dfy`, module `Config`). This is the scan over the
  configuration sections. The `general` section supplies `swap-columns`; the profile's
  own section supplies page size, height, width, rows, columns, unit and fields. The
  scan stops at the first `break`, and it fails when the profile is unknown or the
  result is empty. Next comes the layout: A4 gives a fixed 35-unit cell, and any other
  profile gives `min(width, height) - 5`.
  - The scan appears twice. `ResolveProfile` is the loop as the script writes it, and it
    is proved equal to `Resolve`, a declarative account built on "first section called
    `name`" and "first section the scan breaks at".
- **Label content** (`label.dfy`, module `Label`). For each CSV record this computes the
  QR payload, which is the release URL for a collection export and the sale URL for an
  inventory export. It also computes the text block, which the script builds in its
  `fieldcounter` loop.
  - `BuildText` is that loop, proved equal to `TextBlock`. `TextBlock` is the segments
    joined by `<br />`.
- **Grid packing** (`grid.dfy`, module `Grid`). The `counter` / `tmpqueue` / `data` loop
  puts two cells per record into `data`: the text paragraph and the QR drawing, or the
  other way round when columns are swapped. It flushes a row every `columns` records
  and appends the partial row last.
  - `PackLabels` is that loop, proved equal to `Packed`. `Packed` is "all cells, in
    record order, cut into rows of 2·|columns|". Its shape, ordering and error cases are
    proved as separate lemmas.
- **The main sequence** (`pipeline.dfy`, module `Pipeline`). It runs resolve, the
  empty-CSV exit, layout, the unit lookup that the document template performs, and then
  packing.

`strings.dfy` holds what these use of Python's `int()` and `str.split`, with the
round-trip lemmas. `wrappers.dfy` holds `Option` and `Result`, and `errors.dfy` the error kinds.

Python exceptions and exits become `Failure` values:

| Python | Model |
|---|---|
| `KeyError('k')` | `MissingKey("k")` |
| `ZeroDivisionError` | `ZeroDivision` |
| the "profile name not found" exit | `ProfileNotFound` |
| the "empty profile" exit | `ProfileEmpty` |

The exit on an empty CSV is `Success(NoDocument)`.

### Behaviour of the script as written

The model keeps each of these quirks of the code as it stands.

- **Text lookup.** For every field, the text loop looks up the literal key `'field'`
  (line 242), not the field's name. The comment at line 212 says "artist" and "title"
  are added by default. As written, though, every field other than `condition` shows
  the record's `field` column. A CSV without such a column, such as a plain Discogs
  export, raises KeyError on its first label (`LiteralFieldKey`).
- **Non-integer width.** A width that is not an integer breaks the scan after the
  height was stored. The profile is then not empty, so resolution succeeds, and
  deriving the page size raises KeyError on `width` (`ResolveWidthMissing`). It does not
  report a configuration error.
- **Empty `fields`.** The `fields == []` default (line 145) can never fire, because
  `split` always returns at least one part (`Split`). An empty `fields` value yields
  `[""]`.
- **Missing unit.** A profile with no `unit = mm` and no A4 has no `unit` key. The comment
  at line 137 calls this case "default: points", but `profile['unit']` in the document
  template (line 185) raises KeyError (`PointsProfileFails`).
- **Cells per row.** Each label is two table cells, so a row of the table holds
  2·columns cells. A sheet of "8 rows of 3 labels" (line 9) has 6 cells per row. For
  7 labels in 3 columns, the rows hold 6, 6 and 2 cells (`SevenInThree`).
- **Zero and negative columns.** `columns = 0` raises ZeroDivisionError at the first
  `counter % columns`, after the first label is built. A negative column count packs
  like its absolute value, because Python's `%` gives 0 exactly when Dafny's does.
- **Profile named `general`.** A profile named `general` is handled by the `general`
  branch, so its profile stays empty.

## Model

| member | source | states |
|---|---|---|
| Strings.ParseInt | generate_labels.py:119-132 | `int()` accepts only an optional sign followed by decimal digits |
| Strings.ParseIntRoundTrip | generate_labels.py:119-132 | every integer written in decimal is read back as itself |
| Strings.ParseIntRejects | generate_labels.py:119-132 | a character other than a digit or sign makes `int()` fail, which takes the `except` branch |
| Strings.Split | generate_labels.py:144 | `split(':')` yields at least one part, and no part contains `:` |
| Strings.JoinSplit | generate_labels.py:144 | joining the parts of `split(':')` with `:` restores the setting |
| Strings.SplitJoin | generate_labels.py:144 | splitting a `:`-join of `:`-free parts gives back exactly those parts |
| Strings.JoinLength | generate_labels.py:239-250 | a join of k parts adds exactly k-1 separators |
| Config.IntOrOne | generate_labels.py:126-135 | rows/columns take the integer value of the option, and 1 when it is absent or not an integer |
| Config.FieldsSetting | generate_labels.py:143-149 | absent `fields` gives `["artist","title"]`; a present one gives its `:`-split, which joins back to the setting |
| Config.IndexOf | generate_labels.py:77-80 | finds the first section with the profile's name; all earlier ones have other names |
| Config.FirstBreak | generate_labels.py:90-125 | finds the first section at which the scan breaks, by the break conditions of `BreaksAt` (a `general` section without `type`; the profile's section without `type`, or without A4 and with a non-integer height or width); no earlier section breaks |
| Config.Resolve | generate_labels.py:77-152 | not-found exactly when no section has the name. On success: the name is not `general`; the profile is not empty; A4 or a height; A4 implies mm; a page size or width implies rows and columns |
| Config.ResolveProfile | generate_labels.py:77-152 | the section scan with `break` returns exactly `Resolve` |
| Config.ReadGeneralSection | generate_labels.py:91-101 | the `general` section breaks the scan exactly when it lacks `type`; otherwise swap_columns is on exactly for `swap-columns = yes` |
| Config.ReadProfileSection | generate_labels.py:102-149 | reading the profile's section leaves `SectionProfile` of its options. It breaks exactly when `type` is missing, or when there is no A4 and height or width is not an integer. Fields are `FieldsSetting` unless it broke |
| Config.LayoutOf | generate_labels.py:172-179 | A4 gives a cell of 35. Otherwise: width and height are both needed (a missing width is reported first); the page is width × height in the unit; the cell is 5 less than the smaller side |
| Config.ResolveA4 | generate_labels.py:107-115 | `pagesize = A4` gives A4, millimetres, the section's fields and a 35-unit cell |
| Config.ResolveExplicit | generate_labels.py:117-142 | integer height and width give that page in the configured unit, with cell min(w,h)-5 |
| Config.ResolveGrid | generate_labels.py:126-135 | the resolved rows/columns are the section's integers, defaulting to 1 |
| Config.ResolveEmpty | generate_labels.py:90-152 | the profile is empty when: an earlier section breaks; or the section lacks `type`; or, without A4, the height is not an integer; or the name is `general` |
| Config.ResolveWidthMissing | generate_labels.py:117-125 | a non-integer width leaves a height-only profile, and the layout then fails on `width` |
| Config.GeneralBeforeBreak | generate_labels.py:91-95 | the `general` section is reached exactly when it has `type` and no earlier section breaks |
| Config.ResolveSwap | generate_labels.py:91-101 | swap_columns holds if and only if a reached `general` section says `swap-columns = yes` |
| Config.ScanStopsAtBreak | generate_labels.py:90-149 | sections after a break (with the profile already seen) never change the outcome |
| Label.Payload | generate_labels.py:225-230 | a payload exists exactly when the record has its shape's identifier column; otherwise KeyError on that column |
| Label.PayloadIdentifiesRecord | generate_labels.py:225-230 | the payload decodes back to the release page (collection) or sale page (inventory) and its identifier |
| Label.PayloadInjective | generate_labels.py:225-230 | records with different identifiers get different payloads |
| Label.Segment | generate_labels.py:242-245 | one field's text: the `field` column when non-empty; `v/s: <media>/<sleeve>` for `condition`; otherwise empty. Failure is KeyError on the first missing of `field`, `media_condition`, `sleeve_condition` |
| Label.SegmentsSpec | generate_labels.py:241-245 | on success one segment per field, in order; on failure the error of the first failing field |
| Label.SegmentsPrefixFailure | generate_labels.py:241-245 | once a field fails, later fields do not change the error |
| Label.BuildText | generate_labels.py:239-250 | the `fieldcounter` loop produces exactly `TextBlock`: the segments separated by `<br />`, with none after the last |
| Label.TextBlockEmpty | generate_labels.py:239-250 | no fields give empty text |
| Label.TextBlockSnoc | generate_labels.py:247-248 | a further field adds one `<br />` before its segment and none after |
| Label.TextBlockLength | generate_labels.py:239-250 | k fields give their segments' lengths plus k-1 line breaks |
| Label.LiteralFieldKey | generate_labels.py:242-243 | all non-`condition` fields read the same value, and without a `field` column the text fails with KeyError |
| Label.ConditionSegment | generate_labels.py:244-245 | an empty `field` value and field `condition` give `v/s: <media>/<sleeve>` |
| Grid.ContentOf | generate_labels.py:225-250 | a label builds exactly when the identifier column is present and the text block builds. The payload comes first, so a missing identifier is reported before any text error. The content is that payload and that text |
| Grid.Cells | generate_labels.py:253-258 | a label is exactly two cells, its text and its QR drawing, with the QR drawing first exactly when columns are swapped |
| Grid.ContentsOfSpec | generate_labels.py:224-250 | records build in order: one content per record, or the first failing record's error |
| Grid.ContentsPrefixFailure | generate_labels.py:224-250 | a failing record stops the loop; later records do not change the error |
| Grid.CellsOf | generate_labels.py:253-258 | each record contributes exactly two cells |
| Grid.CellsOfAt | generate_labels.py:253-258 | record i's two cells sit at positions 2i and 2i+1, in the swap order |
| Grid.CellsOfSnoc | generate_labels.py:253-258 | a further record appends its two cells at the end |
| Grid.SwapExchangesCells | generate_labels.py:253-258 | swapping exchanges text and QR within every label and moves nothing else |
| Grid.Chunks | generate_labels.py:259-266 | cutting into rows loses and reorders nothing; all rows but the last are full and the last is non-empty |
| Grid.ChunksUnique | generate_labels.py:259-266 | a table is determined by its cells and row width |
| Grid.FlushStep | generate_labels.py:259 | `counter % columns == 0` holds exactly when the queue has just reached \|columns\| labels |
| Grid.ModAbs | generate_labels.py:259 | a zero test with a negative column count behaves like the absolute count |
| Grid.PackStep | generate_labels.py:253-262 | one iteration keeps the packing invariant: flushed rows + queue = cells so far; rows full; the queue short |
| Grid.PackFinish | generate_labels.py:264-266 | appending the non-empty queue after the loop gives exactly `Chunks` |
| Grid.PackLabels | generate_labels.py:222-266 | the record loop produces exactly `Packed`: all records' cells in rows of 2·\|columns\|, or the first error (ZeroDivision for zero columns) |
| Grid.ZeroColumns | generate_labels.py:259 | with zero columns, a first label that builds is followed by ZeroDivisionError |
| Grid.PackedCells | generate_labels.py:253-266 | a packed table holds two cells per record, in well-packed rows of 2·\|columns\| |
| Grid.PackedFailure | generate_labels.py:224-259 | a record that fails to build fails the whole table with its error |
| Grid.PackedSuccess | generate_labels.py:259-266 | the loop's final state yields `Packed` |
| Grid.PackedShape | generate_labels.py:259-266 | n labels in c columns: rows of 2\|c\| cells; the last row is non-empty; ceil(n/\|c\|) rows; the last row is full iff \|c\| divides n |
| Grid.PackedOrder | generate_labels.py:222-266 | reading the table row by row gives each record's two cells in record order |
| Grid.SevenInThree | generate_labels.py:259-266 | 7 labels in 3 columns give rows of 6, 6 and 2 cells |
| Grid.EightInFour | generate_labels.py:259-266 | 8 labels in 4 columns give exactly two full rows |
| Pipeline.Generate | generate_labels.py:77-186 | Outcomes: an unknown profile is ProfileNotFound; an empty CSV gives no document; a document has mm units and a non-empty table (A4 gives cell 35) |
| Pipeline.GenerateLabels | generate_labels.py:77-266 | the script's sequence returns exactly `Generate` |
| Pipeline.PointsProfileFails | generate_labels.py:172-186 | without mm units, a non-empty CSV never yields a document |

## Left out

- Command-line parsing, the file-existence checks, the opening and closing of files,
  and the exit codes with their messages. Outcomes are `Result` values instead.
- The CSV reader. Records arrive as maps from column name to string. Short rows, whose
  missing values are `None`, are not modelled.
- The names `csvlines` and `csv_type`. The script uses both but never defines them
  (the CSV rows are never read into `csvlines`). Both are inputs of the model.
- Rendering by reportlab: QR symbology, `Drawing` and `Paragraph` objects, the body-text
  style, the table style, the row height `dims + 2`, and the document margins and build.
  A cell is `Text(html)` or `Qr(payload, side)`. The page is `A4` or
  `Explicit(width, height, unit)`. The floating-point sizes of A4 and `mm` are not
  computed.
- configparser behaviour: inheritance from the `DEFAULT` section, lower-casing of option
  names, and interpolation. Sections are given already parsed.
- ResolveProfile: requires distinct section names, because configparser rejects a
  duplicate section when it reads the file.
- ParseInt: does not accept surrounding whitespace, `_` digit separators or non-ASCII
  digits, all of which Python's `int()` accepts.
- The `rows` setting is resolved but is not used further, exactly as in the script.
