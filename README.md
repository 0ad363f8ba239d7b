# Court display-board scrapers, modelled in Dafny

The repository holds sixteen scrapers, one per High Court bench (and two for
Chhattisgarh and two for Jharkhand). Each scraper polls the bench's public
display board, turns the board into one record per court (or per serial number
listed in a court), appends the records to a day's spreadsheet, keeps a backup
copy every so many cycles, and the `_api` variants also post each record to an
ingestion endpoint and tally the outcome.

Leave out the browser, the spreadsheet and the HTTP plumbing and three kinds of
deterministic logic remain. This project models all three and proves what each
promises:

* **Field normalisers**: the small regex cascades that read a case number, a
  serial range, a court-hall number or a petitioner/respondent split out of a
  cell's text. Each regex is written as an explicit left-to-right scanner over
  `seq<char>` with Python's `re.search` semantics: the leftmost match wins,
  `\d` is an ASCII digit, `\b` treats letters, digits and `_` as word
  characters, and `str.strip`/`\s` use Python's whitespace set.
* **Board decoders**: each site's walk over a table's rows, or over a row's
  cells, that emits zero or more records. A decoder is a function from the
  abstract table (`Dom.Cell`, `Dom.Row`, `Dom.Table`) to a record sequence.
  The site's loop is a `method` proved equal to that function, and lemmas
  state how many records come out, where each field is read from, and which
  rows are skipped.
* **Driver counters and batch tally**: the `main` loop's `cycle_count`,
  `last_backup_cycle`, `first_cycle` (and Gwalior's `pending_backup_data`)
  as classes whose methods are proved against a pure step function, plus the
  per-batch success/failure tally of the posting loop, with each POST
  outcome an input.

Modules:

| module | file | what it holds |
|---|---|---|
| `Text` | text.dfy | characters, Python `strip`, `split`, `join`, `int()`, `lower`/`upper`, the whitespace collapse of `clean_text` |
| `Scan` | scan.dfy | a generic leftmost `Search` and the regex atoms the sites share (digit runs, standalone numbers) |
| `Dom` | dom.dfy | cells, rows and tables as the scrapers see them; `FlatMap`, `Filter` and counting lemmas |
| `Ingest` | ingest.dfy | the posting loop's tally |
| `Driver` | driver.dfy | the three shapes of `main` loop |
| `MadhyaPradesh` | madhyapradesh.dfy | the board reading the Gwalior and Jabalpur scrapers share |
| one per site | allahabad.dfy … telangana.dfy | that site's normalisers, decoder and payload |

## Model

| member | source | states |
|---|---|---|
| PortBlair.CaseNumberNumeric | PortBlair_display_scrapper_api.py:50-69 | blank input or input without a slash gives ""; any result is empty or all digits |
| PortBlair.CaseNumberBetweenSlashes | PortBlair_display_scrapper_api.py:58-60 | the first slash-enclosed digit run is the case number: "MAT/67/2026" gives "67", and so does "A/B/67/2026", whose earlier slashes enclose no digits |
| PortBlair.CaseNumberAfterOnlySlash | PortBlair_display_scrapper_api.py:63-65 | with a single slash, the digit run right after it is the case number |
| PortBlair.RangeAt | PortBlair_display_scrapper_api.py:84 | a range match carries two non-empty digit runs |
| PortBlair.InclusiveRange | PortBlair_display_scrapper_api.py:88 | `list(range(a, b+1))`: b-a+1 ascending numbers from a, none when a > b |
| PortBlair.SerialRange | PortBlair_display_scrapper_api.py:72-97 | blank text gives no serials; the serials given are consecutive |
| PortBlair.RangeAtSpan | PortBlair_display_scrapper_api.py:84-86 | where "A-B" stands in the text the range pattern reads A and B |
| PortBlair.SerialRangeExpands | PortBlair_display_scrapper_api.py:84-88 | "AD 27-31" gives 27..31: a range is expanded in full, empty when it runs backwards |
| PortBlair.NoRangeInOneDigitRun | PortBlair_display_scrapper_api.py:84 | text whose digits form one run holds no range |
| PortBlair.SerialRangeSingle | PortBlair_display_scrapper_api.py:91-93 | a lone standalone number n gives [n] |
| PortBlair.SerialRangeAt | PortBlair_display_scrapper_api.py:91-93 | one standalone digit run and no other digit gives its value |
| PortBlair.SerialRangeNeedsWordBoundary | PortBlair_display_scrapper_api.py:91-95 | `\b`: "AD7" has no standalone number, so no serial |
| PortBlair.EyeButtonCases | PortBlair_display_scrapper_api.py:516-542 | no serial exactly when no case numbers; no case number holds a comma |
| PortBlair.CaseList | PortBlair_display_scrapper_api.py:531-535 | at least one piece, none holding a comma |
| PortBlair.ViewCasesAtWritten | PortBlair_display_scrapper_api.py:528 | an onclick written from two quote-free texts matches with them as the groups |
| PortBlair.ViewCasesAtEnds | PortBlair_display_scrapper_api.py:528 | the pattern matches wherever the opening, the two quote-free groups and their closers stand |
| PortBlair.JoinedCasesUnpadded | PortBlair_display_scrapper_api.py:531-532 | stripping a comma-joined list of stripped case numbers changes nothing |
| PortBlair.CaseListRoundTrip | PortBlair_display_scrapper_api.py:531-535 | splitting a comma-joined list of case numbers gives them back |
| PortBlair.CaseListOfStrippedPieces | PortBlair_display_scrapper_api.py:531-535 | a stripped list whose pieces are already stripped reads back as those pieces |
| PortBlair.EyeButtonRoundTrip | PortBlair_display_scrapper_api.py:516-542 | reading an onclick written for a serial and case numbers gives that serial and those case numbers |
| PortBlair.CourtText | PortBlair_display_scrapper_api.py:578-583 | a court cell with span children loses its "ℹ" marker |
| PortBlair.Pad | PortBlair_display_scrapper_api.py:604-613 | the i-th element while there is one, the last element after that |
| PortBlair.PairSerialsWithCases | PortBlair_display_scrapper_api.py:597-627 | the pairing loop builds exactly the paired records |
| PortBlair.DecodeRow | PortBlair_display_scrapper_api.py:570-648 | one row's loop body gives exactly that row's records |
| PortBlair.SerialsAlone | PortBlair_display_scrapper_api.py:630-643 | the serial-only loop gives one record per serial |
| PortBlair.ScrapeDisplayBoard | PortBlair_display_scrapper_api.py:561-652 | the board's records are the rows' records in table order |
| PortBlair.PairingCoversBoth | PortBlair_display_scrapper_api.py:597-627 | max(len) records; serial j and case j in record j; the shorter list padded with its last element |
| PortBlair.RowRecordsSkipAndSerialOnly | PortBlair_display_scrapper_api.py:574-575 | rows with fewer than 3 cells or no serial give nothing; serials without cases give one record per serial with empty case fields |
| PortBlair.RecordFieldsAgree | PortBlair_display_scrapper_api.py:597-648 | each record's case number is the numeric extraction of its full case number, its serial is one of the row's serials, bench and time are the scrape's |
| PortBlair.PairedFieldsAgree | PortBlair_display_scrapper_api.py:602-627 | the same for a paired record |
| PortBlair.SerialOnlyFieldsAgree | PortBlair_display_scrapper_api.py:630-643 | the same for a serial-only record |
| PortBlair.ToPayload | PortBlair_display_scrapper_api.py:304-323 | the posted body: serial text read as int or 0, court, case number, coram as stage, list number 0 |
| PortBlair.PayloadSerialRoundTrip | PortBlair_display_scrapper_api.py:309-318 | a record scraped from serial n posts serialNumber n |
| PortBlair.ErrorKey | PortBlair_display_scrapper_api.py:382 | an error entry names the record's court and case number |
| Ingest.PostAll | PortBlair_display_scrapper_api.py:350-406 | disabled posting reports all zeros; otherwise total is the batch size, successful counts the accepted POSTs, the errors list the failures in order, failed is their number (the same loop at every API site) |
| Ingest.TallyBalances | PortBlair_display_scrapper_api.py:367-382 | every POST is counted once: accepted plus failed is the number posted |
| Ingest.SummaryBalances | PortBlair_display_scrapper_api.py:401-406 | the returned summary adds up: successful + failed == total |
| Ingest.FailureFromFailedPost | PortBlair_display_scrapper_api.py:379-382 | each error entry comes from a failed POST of the batch, with its message and the record's key |
| Ingest.AllAcceptedNoErrors | PortBlair_display_scrapper_api.py:376-377 | a batch whose POSTs are all accepted has no errors and counts every record |
| AndhraPradesh.WalkStep | andhrapradesh_display_scrapper_api.py:444-510 | one pass of the walk emits at most one record, only at a court-link cell that has a next cell, and moves on by 1, 2 or 4 cells; a non-link cell or a last cell moves on by 1 and emits nothing |
| AndhraPradesh.VisitCell | andhrapradesh_display_scrapper_api.py:445-510 | the loop body moves idx forward and the rest of the walk is what it emitted followed by the walk from the new idx |
| AndhraPradesh.WalkFrom | andhrapradesh_display_scrapper_api.py:444 | the walk from idx is its first step followed by the walk from where that step lands |
| AndhraPradesh.DecodeRow | andhrapradesh_display_scrapper_api.py:426-510 | the row loop gives exactly the row's records, none for a row of fewer than 4 cells |
| AndhraPradesh.ScrapeDisplayBoard | andhrapradesh_display_scrapper_api.py:418-510 | the board's records are the rows' records in table order |
| AndhraPradesh.ClosedCourtStep | andhrapradesh_display_scrapper_api.py:461-478 | a court followed by a cell of colspan >= 3 gives one record with empty Coram and Kept Back and the status as Item No, and moves past 2 cells |
| AndhraPradesh.OpenCourtStep | andhrapradesh_display_scrapper_api.py:479-501 | any other court with a next cell gives Coram from idx+1, Item No and Kept Back from idx+2 and idx+3 or "", and moves past 4 cells |
| AndhraPradesh.WalkRecordsFromCourtCells | andhrapradesh_display_scrapper_api.py:450-498 | every record comes from a court-link cell of the row and carries the bench, the sub-bench and the scrape time |
| AndhraPradesh.CourtCellsSuffix | andhrapradesh_display_scrapper_api.py:448 | a suffix of a row holds no more court-link cells than the row |
| AndhraPradesh.WalkAtMostOnePerCourt | andhrapradesh_display_scrapper_api.py:450-503 | a row gives at most one record per court-link cell |
| AndhraPradesh.WalkRendered | andhrapradesh_display_scrapper_api.py:439-501 | a board laid out as the site lays it out (open courts in 4 cells, closed ones in 2) decodes to one record per court, in order, each the expected one |
| AndhraPradesh.WalkRenderedAll | andhrapradesh_display_scrapper_api.py:439-501 | the same as one sequence equality |
| AndhraPradesh.ExpectedAllAt | andhrapradesh_display_scrapper_api.py:439-501 | the expected records are one per court in order |
| AndhraPradesh.WalkCourt | andhrapradesh_display_scrapper_api.py:461-501 | a laid-out court at the head of the cells gives its record and the walk resumes right after its cells |
| AndhraPradesh.SerialNumber | andhrapradesh_display_scrapper_api.py:58-70 | an Item No without digits posts serialNumber 0 |
| AndhraPradesh.SerialNumberFirstRun | andhrapradesh_display_scrapper_api.py:62-64 | the first digit run is read whatever follows ("D-10" gives 10) |
| AndhraPradesh.CourtHallNumber | andhrapradesh_display_scrapper_api.py:76-83 | Court No unchanged unless it starts with a digit; then its maximal leading digit run |
| AndhraPradesh.ToPayload | andhrapradesh_display_scrapper_api.py:57-95 | the posted body: serial and court hall as above, empty case number, Kept Back as passed-over cases, list number 0 |
| AndhraPradesh.ErrorKey | andhrapradesh_display_scrapper_api.py:142-160 | an error entry names the court by the same leading digits posted as courtHallNumber (a digit-led Court No gives a non-empty digit prefix of it), and the item |
| Allahabad.CaseCharRunEnd | allahabad_display_scraper_api.py:292 | the `[A-Z0-9/]+` run from i is maximal: case characters up to a non-case character or the end |
| Allahabad.LabelledAt | allahabad_display_scraper_api.py:292 | a match after "Case Details - " is a non-empty run of `[A-Z0-9/]` |
| Allahabad.TypeNumberYearAt | allahabad_display_scraper_api.py:297 | a LETTERS/digits/digits match is a non-empty run of case characters |
| Allahabad.CaseNumber | allahabad_display_scraper_api.py:288-303 | the labelled match when there is one, else the first LETTERS/digits/digits token when there is one, else ""; the result is always case characters |
| Allahabad.CaseNumberAfterLabel | allahabad_display_scraper_api.py:292-294 | "Case Details - WRIC/18652/2024 ..." gives the whole run after the label |
| Allahabad.CaseNumberFallback | allahabad_display_scraper_api.py:291-299 | "Fresh WRIC/18652/2024": a token after text that holds neither the label nor a token and does not end in a capital is the case number, when the label does not follow it either |
| Allahabad.FallbackAt | allahabad_display_scraper_api.py:291-299 | a token at i with no token before it and the label neither before nor after it is the case number |
| Allahabad.TokenAt | allahabad_display_scraper_api.py:297 | "TY/N/Y" written at i followed by a non-digit matches there |
| Allahabad.TokenShapeAt | allahabad_display_scraper_api.py:297 | letters, '/', digits, '/', digits from i match as the token |
| Allahabad.NoLabelAt | allahabad_display_scraper_api.py:292 | the label pattern cannot match across a token, so it matches nowhere when neither the text before nor the text after the token holds it |
| Allahabad.NoTokenAcross | allahabad_display_scraper_api.py:297 | text starting with a capital, appended to a prefix that has no token and does not end in a capital, creates no token starting in the prefix |
| Allahabad.RowRecords | allahabad_display_scraper_api.py:342-393 | a row gives one record exactly when it has 5 cells or more, else none |
| Allahabad.DecodeRow | allahabad_display_scraper_api.py:342-393 | the loop body gives exactly the row's record |
| Allahabad.ScrapeDisplayBoard | allahabad_display_scraper_api.py:337-393 | the records of every row after the first, in order |
| Allahabad.RecordCount | allahabad_display_scraper_api.py:340-345 | one record per row after the header that has 5 cells or more |
| Allahabad.NotInSessionTest | allahabad_display_scraper_api.py:352 | the two-part test holds exactly when cell 1 contains "NOT in session" |
| Allahabad.NotInSessionRecord | allahabad_display_scraper_api.py:352-367 | a not-in-session row keeps the court, empty serial, list and case number, the fixed progress and details, and the last cell as information only when there are more than 5 cells |
| Allahabad.RegularRecord | allahabad_display_scraper_api.py:370-391 | a sitting court's row takes cells 1-4 in order, the case number from the details, and cell 5 when present |
| Allahabad.ToPayload | allahabad_display_scraper_api.py:50-73 | the posted body: int(Serial No) or 0, the progress as stage, list number always 0 |
| Allahabad.NotInSessionPayload | allahabad_display_scraper_api.py:50-73 | a court not in session posts serial 0 and no case number |
| Allahabad.ErrorKey | allahabad_display_scraper_api.py:130 | an error entry names the court and case number |
| Chhattisgarh.CaseTypeEnd | chattisgarh_display_board_api.py:55 | the case type `[A-Z]+(?:\([A-Z]+\))?` at the start ends within the text and, when present, starts with a capital |
| Chhattisgarh.TypedCaseAtStart | chattisgarh_display_board_api.py:55 | a match of the typed form gives a digit-run number, a 4-digit year and a type starting with a capital |
| Chhattisgarh.SlashAfter | chattisgarh_display_board_api.py:55 | `\s*/` from i ends just after a slash |
| Chhattisgarh.YearAt | chattisgarh_display_board_api.py:55 | `\s*(\d{4})` gives exactly four digits |
| Chhattisgarh.ParseCaseDetails | chattisgarh_display_board_api.py:39-71 | blank input gives ("","",""); the number is empty or digits, the year empty or 4 digits; a type is only given with a number and a year |
| Chhattisgarh.CaseTypeEndOf | chattisgarh_display_board_api.py:55 | a type written as capitals with optional "(CAPITALS)" is read in full |
| Chhattisgarh.TypedCaseMatches | chattisgarh_display_board_api.py:55 | type, " / ", digits, " / ", four digits at the start match as (number, type, year) |
| Chhattisgarh.TypedCaseAtEnds | chattisgarh_display_board_api.py:55 | the typed match read off from where each of its parts ends |
| Chhattisgarh.ParseTypedCase | chattisgarh_display_board_api.py:55-61 | "FA(MAT) / 448 / 2025" gives ("448", "FA(MAT)", "2025") |
| Chhattisgarh.TypedCaseParsed | chattisgarh_display_board_api.py:52-61 | a stripped string starting with the typed form parses to its parts |
| Chhattisgarh.ParseUntypedCase | chattisgarh_display_board_api.py:63-65 | a string not starting with a case type falls back to the number between slashes: ("3873", "", "") |
| Chhattisgarh.CaseNumberFromPurpose | chattisgarh_display_board_api.py:76-100 | blank or digit-free purpose gives ""; a result is all digits |
| Chhattisgarh.SlashNumberFound | chattisgarh_display_board_api.py:89 | a first slash followed by blanks, digits, blanks and a slash gives those digits |
| Chhattisgarh.PurposeNumberBetweenSlashes | chattisgarh_display_board_api.py:89-91 | "CRMP / 3087 / 2025" gives "3087": blanks around the number are allowed |
| Chhattisgarh.PurposeFallback | chattisgarh_display_board_api.py:89-96 | with no number between slashes anywhere, the first standalone number is the case number |
| Chhattisgarh.SerialNumber | chattisgarh_display_board_api.py:129-139 | never negative; 0 for a Full Case with neither '-' nor digits |
| Chhattisgarh.SerialNumberOfRange | chattisgarh_display_board_api.py:132-133 | "8 - 9" gives 8 |
| Chhattisgarh.SerialNumberFallback | chattisgarh_display_board_api.py:134-137 | without a '-', the serial number is the value of the first standalone number |
| Chhattisgarh.ListNumber | chattisgarh_display_board_api.py:141-145 | int(List Type) when it reads as an int, else 0 |
| Chhattisgarh.ToPayload | chattisgarh_display_board_api.py:125-155 | the posted body: case number from the purpose, serial from Full Case, list number from List Type, the purpose as stage |
| Chhattisgarh.ErrorKey | chattisgarh_display_board_api.py:218 | an error entry names the court and the purpose |
| Chhattisgarh.RowStep | chattisgarh_display_board_api.py:432-490 | a row gives a record exactly when it is decodable (5 cells or more, rowspan readable); a court-starting row carries its own court cell on, any other row keeps the carried court; the record's court is the carried one |
| Chhattisgarh.RecordAt | chattisgarh_display_board_api.py:455-485 | five cells from the offset become List Type, Round, SNo., Full Case and Purpose, with the case parsed from Full Case |
| Chhattisgarh.Decode | chattisgarh_display_board_api.py:425-490 | no more records than rows |
| Chhattisgarh.DecodeRow | chattisgarh_display_board_api.py:432-490 | the loop body gives the row's record and the court carried on |
| Chhattisgarh.ScrapeDisplayBoard | chattisgarh_display_board_api.py:416-490 | the `while i < len(rows)` loop gives exactly the decoded records |
| Chhattisgarh.CarriedCourt | chattisgarh_display_board_api.py:425-455 | the court carried out of a run of rows is that of the last court-starting row, "" before any |
| Chhattisgarh.ShortRowsSkipped | chattisgarh_display_board_api.py:436-444 | a row of fewer than 5 cells gives nothing and leaves the carried court |
| Chhattisgarh.FieldPlacement | chattisgarh_display_board_api.py:453-468 | a court-starting row reads cells 1-5 under its own court; any other row reads cells 0-4 under the carried court |
| ChhattisgarhBoard.RowRecords | chattisgarh_display_board.py:145-196 | a row gives at most one record |
| ChhattisgarhBoard.DecodeRow | chattisgarh_display_board.py:145-196 | the loop body gives exactly the row's record |
| ChhattisgarhBoard.ScrapeDisplayBoard | chattisgarh_display_board.py:143-197 | the records of every row after the header, in order |
| ChhattisgarhBoard.AtMostOnePerRow | chattisgarh_display_board.py:143-197 | no more records than rows after the header |
| ChhattisgarhBoard.FullRowColumns | chattisgarh_display_board.py:170-196 | a row of 6 cells or more gives its first six cells in column order |
| ChhattisgarhBoard.ShortRow | chattisgarh_display_board.py:148-167 | a row of 1-5 cells gives a record exactly when cell 0 says "not in session", with "Not in Session" as list type and "Court Not in Session" as purpose |
| ChhattisgarhBoard.EmptyRowSkipped | chattisgarh_display_board.py:148-150 | a row without cells gives nothing |
| ChhattisgarhBoard.LowerCaseTestSuffices | chattisgarh_display_board.py:152 | the exact-case test is subsumed by the lower-cased one |
| Delhi.DashDigitsSlashAt | delhi_display_scrapper_api.py:53 | a match of `-\s*(\d+)\s*/` gives a non-empty digit run |
| Delhi.CaseNumberNumeric | delhi_display_scrapper_api.py:40-64 | blank input gives ""; a result is all digits |
| Delhi.CaseNumberAfterDash | delhi_display_scrapper_api.py:53-55 | "LPA - 500 / 2025" gives "500" when the prefix has no other dash |
| Delhi.DashNumberAt | delhi_display_scrapper_api.py:53-55 | a first dash, a blank, digits and " /" give those digits |
| Delhi.CaseNumberFallback | delhi_display_scrapper_api.py:53-60 | with no dash-digits-slash anywhere, the first standalone number is the case number |
| Delhi.VsAt | delhi_display_scrapper_api.py:80 | a separator match starts with whitespace and spans at least four characters |
| Delhi.SplitTitle | delhi_display_scrapper_api.py:67-90 | blank title gives ("",""); without a separator (stripped title, ""); both parts always stripped |
| Delhi.SplitTitleRoundTrip | delhi_display_scrapper_api.py:80-85 | splitting "petitioner Vs respondent" gives back both parties |
| Delhi.NoVsBefore | delhi_display_scrapper_api.py:80 | no separator starts inside a petitioner without a " vs" word |
| Delhi.VsHere | delhi_display_scrapper_api.py:80 | " Vs " followed by a non-blank is a separator ending after it |
| Delhi.ItemNumberNumeric | delhi_display_scrapper_api.py:93-112 | "*", blank or digit-free items give ""; a result is all digits |
| Delhi.ItemNumberAfterLetters | delhi_display_scrapper_api.py:106-108 | "A23" gives "23": the first digit run |
| Delhi.RowRecords | delhi_display_scrapper_api.py:400-443 | a row gives one record exactly when it has 5 cells or more, its item is not "*" and its case is not empty |
| Delhi.DecodeRow | delhi_display_scrapper_api.py:400-443 | the loop body gives exactly the row's record |
| Delhi.ScrapeDisplayBoard | delhi_display_scrapper_api.py:398-443 | the records of all rows in order |
| Delhi.ScrapeCount | delhi_display_scrapper_api.py:402-422 | at most one record per row, exactly one when no row is filtered |
| Delhi.ToPayload | delhi_display_scrapper_api.py:142-167 | the posted body apart from its judge and party fields: int(Item No.) or 0, court, case number, the title as stage, list number 0 |
| Delhi.PostedParties | delhi_display_scrapper_api.py:142-164 | the remaining posted fields: judgeName is the judges cell, petitioner and respondent the two halves of the title |
| Delhi.RowPostsParties | delhi_display_scrapper_api.py:162-164 | a row titled "P Vs R" posts P as petitioner, R as respondent and its stripped judges cell as judgeName |
| Delhi.PayloadSerialOfItem | delhi_display_scrapper_api.py:150-153 | an item "A23" posts serialNumber 23 |
| Delhi.ErrorKey | delhi_display_scrapper_api.py:224 | an error entry names the court and case number |
| Dharwad.Texts | dharward_sisplay_scraper.py:194 | one cleaned text per header cell, in order |
| Dharwad.DataTableIff | dharward_sisplay_scraper.py:196-198 | a table is a data table exactly when its header text mentions "CH No" (the "CH No." test is redundant) |
| Dharwad.RowRecords | dharward_sisplay_scraper.py:232-266 | a row gives one record exactly when it has 5 cells or more |
| Dharwad.TestTable | dharward_sisplay_scraper.py:185-198 | the table test decides exactly the data tables |
| Dharwad.FindDataTables | dharward_sisplay_scraper.py:181-201 | the table loop collects exactly the data tables, in page order |
| Dharwad.DecodeRow | dharward_sisplay_scraper.py:232-266 | the loop body gives exactly the row's record |
| Dharwad.ScrapeDisplayBoard | dharward_sisplay_scraper.py:178-273 | the records of the third data table's rows after its header, none with fewer than three data tables |
| Dharwad.EveryRowKept | dharward_sisplay_scraper.py:230-263 | no filtering: when every row after the header has 5 cells or more, record k is row k+1's |
| Dharwad.RecordCount | dharward_sisplay_scraper.py:230-266 | one record per row after the header with 5 cells or more |
| Dharwad.FieldPlacement | dharward_sisplay_scraper.py:237-261 | cells 0-4 are CH No, List No, Sl. No, Case No and Stage, with the bench constants; later cells are ignored |
| Dharwad.TooFewDataTables | dharward_sisplay_scraper.py:207-273 | fewer than three data tables give no records |
| Dharwad.OtherTableIgnored | dharward_sisplay_scraper.py:196-198 | a table that is not a data table changes nothing wherever it stands |
| Dharwad.LaterTablesIgnored | dharward_sisplay_scraper.py:207-208 | tables after the third data table change nothing |
| Dharwad.ThirdDataTable | dharward_sisplay_scraper.py:207-208 | a data table preceded by exactly two others is the one decoded |
| Jharkhand.Classify | jharkhand_display_scraper_api.py:357-385 | a data row has an entry exactly when it has 2 cells or at least 4 and its court text is not empty |
| Jharkhand.RowRecords | jharkhand_display_scraper_api.py:357-404 | a row gives at most one record |
| Jharkhand.DecodeRow | jharkhand_display_scraper_api.py:357-404 | the row loop body gives exactly the row's record (both scrapers) |
| Jharkhand.ScrapeDisplayBoard | jharkhand_display_scraper_api.py:330-404 | the nested table and row loops give exactly the page's records, table after table (both scrapers) |
| Jharkhand.FieldPlacement | jharkhand_display_scraper_api.py:368-377 | a 2-cell row gives empty Sl.No. and Case No. with cell 1 as status; a row of 4 cells or more gives cells 1-3 and ignores the rest |
| Jharkhand.TableBound | jharkhand_display_scraper_api.py:339-355 | a header-only table gives nothing; any other at most one record per row after the header |
| Jharkhand.TablesInOrder | jharkhand_display_scraper_api.py:330 | records come table by table: two runs of tables give the first's records followed by the second's |
| Jharkhand.SameRowsBothScrapers | jharkhand_display_scraper.py:150-197 | the spreadsheet-only scraper keeps the same rows as the API scraper: its k-th record is the API record without bench and sub-bench |
| Jharkhand.MapSeq | jharkhand_display_scraper.py:189-195 | one image per element, in order |
| Jharkhand.RowsMap | jharkhand_display_scraper.py:150-197 | row by row, the spreadsheet records are the API records less the bench columns |
| Jharkhand.ScrapeMaps | jharkhand_display_scraper.py:125-197 | table by table, likewise |
| Jharkhand.SerialNumber | jharkhand_display_scraper_api.py:57-68 | without a slash the Sl.No. is read with int() or gives 0 |
| Jharkhand.SerialAfterSlash | jharkhand_display_scraper_api.py:61-64 | "D/73" gives 73: the number after the last slash reads back |
| Jharkhand.SerialNothingAfterSlash | jharkhand_display_scraper_api.py:61-68 | "D/" gives 0 |
| Jharkhand.ToPayload | jharkhand_display_scraper_api.py:56-79 | the posted body: serial as above, court, case number, the status, and no listNumber key |
| Jharkhand.ErrorKey | jharkhand_display_scraper_api.py:135 | an error entry names the court and case number |
| Kerala.Cleaned | kerala_display_scraper_api.py:351-352 | one cleaned text per cell |
| Kerala.CleanedAt | kerala_display_scraper_api.py:351-352 | text i is clean_text of cell i |
| Kerala.PairRecords | kerala_display_scraper_api.py:348-367 | a court pair gives at most one record |
| Kerala.Pairs | kerala_display_scraper_api.py:344-367 | the first n courts give at most n records |
| Kerala.RowRecords | kerala_display_scraper_api.py:334-367 | a row gives at most 4 records, none when it has fewer than 8 cells |
| Kerala.DecodeRow | kerala_display_scraper_api.py:344-367 | the `court_idx` loop gives exactly the row's records and adds their number to court_count |
| Kerala.DecodeCourt | kerala_display_scraper_api.py:345-367 | one pass gives the court's record, none when its court text is empty |
| Kerala.PairOfTexts | kerala_display_scraper_api.py:351-365 | court and item texts c, t give Record(c, t), nothing when c is empty |
| Kerala.PairsStep | kerala_display_scraper_api.py:344-367 | one more court appends its record, if any |
| Kerala.ScrapeDisplayBoard | kerala_display_scraper_api.py:328-373 | the row loop gives the board's records in order, and court_count is their number |
| Kerala.PairsExactly | kerala_display_scraper_api.py:344-367 | a record is among the first n courts' records exactly when some court k < n has court text and gives it: an empty court does not stop the later ones |
| Kerala.RowExactly | kerala_display_scraper_api.py:337-367 | a full row's records are exactly its courts with court text among the first four pairs; cells after the eighth are never read |
| Kerala.PairsPrefix | kerala_display_scraper_api.py:345-349 | only the first 2n texts matter to the first n courts |
| Kerala.FullRow | kerala_display_scraper_api.py:344-367 | four courts with text give four records, the k-th from cells 2k and 2k+1 |
| Kerala.FullPairs | kerala_display_scraper_api.py:344-367 | the same on the cleaned texts |
| Kerala.FourPairs | kerala_display_scraper_api.py:344 | the row's records are the four courts' records in turn |
| Kerala.ItemSerial | kerala_display_scraper_api.py:74-83 | an empty item or "----" posts 0 |
| Kerala.ItemSerialIsIntOrZero | kerala_display_scraper_api.py:78-83 | the "----" test is redundant: the serial is int(item) or 0 |
| Kerala.ItemSerialRoundTrip | kerala_display_scraper_api.py:79 | an item "316" posts 316 |
| Kerala.ToPayload | kerala_display_scraper_api.py:74-94 | the posted body: serial as above, court, no case number, no stage, list number 0 |
| Kerala.ErrorKey | kerala_display_scraper_api.py:152 | an error entry names the court and the item |
| Madras.DigitsSlashAt | madras_display_scrapper_api.py:51 | `(\d+)/` at i gives the maximal digit run from i, which a slash follows |
| Madras.DotDigitsSlashAt | madras_display_scrapper_api.py:51 | `\.?(\d+)/` gives a non-empty digit run |
| Madras.CaseNumberNumeric | madras_display_scrapper_api.py:38-62 | blank or digit-free input gives ""; a result is all digits |
| Madras.NoDigitsDotSlash | madras_display_scrapper_api.py:51 | digit-free text has no digits-slash match |
| Madras.CaseNumberBeforeSlash | madras_display_scrapper_api.py:51-53 | "WP.1083/2026", "WP1594/2026", "CRL OP.16466/2007" give the digits before the first slash |
| Madras.CaseNumberFallback | madras_display_scrapper_api.py:51-58 | when no digit run is followed by a slash, the first standalone number is the case number |
| Madras.ItemNumberNumeric | madras_display_scrapper_api.py:65-84 | the result is the maximal leading digit run of the item, "" when it does not start with a digit |
| Madras.ItemNumberLeading | madras_display_scrapper_api.py:78-80 | "6/L1" gives "6", "21" gives "21" |
| Madras.MarkerAt | madras_display_scrapper_api.py:378 | a marker match starts with "Court No" and ends after the colon |
| Madras.SplitAtMarkers | madras_display_scrapper_api.py:378 | the split gives at least one piece |
| Madras.NoStraddle | madras_display_scrapper_api.py:378 | "Court No" cannot overlap the start of a marker written after marker-free text |
| Madras.SplitPage | madras_display_scrapper_api.py:378 | splitting a page written as a preface and marker-introduced sections gives back the preface and the sections |
| Madras.NoMarkerNoCut | madras_display_scrapper_api.py:378 | text without a marker is one piece |
| Madras.MarkerCut | madras_display_scrapper_api.py:378 | the first cut falls right after a marker-free preface |
| Madras.FirstMarker | madras_display_scrapper_api.py:378 | the first marker found is the one after a marker-free preface |
| Madras.SectionsOfPage | madras_display_scrapper_api.py:378-385 | the sections of a written page (the text before the first marker dropped) are the sections it was written from |
| Madras.CourtNoAtStart | madras_display_scrapper_api.py:388 | a court number at the start of a section is a non-empty digit run |
| Madras.ItemRunEnd | madras_display_scrapper_api.py:395 | the `[\d/L]+` run from i is maximal |
| Madras.ItemAt | madras_display_scrapper_api.py:395 | an item match is a non-empty run of `[\d/L]` |
| Madras.DigitsSlashDigitsAt | madras_display_scrapper_api.py:406 | a `\d+/\d+` match starts with a digit at i, is a slice of the text there, holds a slash and no whitespace |
| Madras.PrefixEnd | madras_display_scrapper_api.py:403 | a listed prefix found at i ends after i |
| Madras.DotSpaceRunEnd | madras_display_scrapper_api.py:403 | the `[.\s]*` run from i is maximal |
| Madras.PrefixedCaseAt | madras_display_scrapper_api.py:403 | a prefixed match ends in a digits/digits token |
| Madras.CaseTokenIffDigitsSlashDigits | madras_display_scrapper_api.py:403-409 | a section has a case token exactly when it holds digits/digits: the prefixed pattern never rescues a section |
| Madras.SectionRecord | madras_display_scrapper_api.py:386-428 | a section gives a record exactly when it starts with a court number, has an item token and a digits/digits token; the stored full case holds no whitespace; the item and case numbers are what the extractors read |
| Madras.ScrapeDisplayBoard | madras_display_scrapper_api.py:378-434 | the section loop gives exactly the page's records, section by section |
| Madras.ScrapeBound | madras_display_scrapper_api.py:385 | at most one record per section, none from the text before the first marker |
| Madras.ScrapedCasesUnspaced | madras_display_scrapper_api.py:413 | no stored full case number holds whitespace |
| Madras.DecodedUnspaced | madras_display_scrapper_api.py:413 | the same for one section |
| Madras.ToPayload | madras_display_scrapper_api.py:111-130 | the posted body: int(Item No) or 0, court, case number, the full case as stage, list number 0 |
| Madras.PayloadSerialOfItem | madras_display_scrapper_api.py:116-117 | an item scraped from "6/L1" posts 6 |
| Madras.ErrorKey | madras_display_scrapper_api.py:189 | an error entry names the court and case number |
| Orissa.LastNotNewline | orissa_displayboard_scrapper.py:100 | the last non-newline position before j, and only newlines after it |
| Orissa.SlNoCaseAt | orissa_displayboard_scrapper.py:100 | a match at i gives a non-empty digit run as the Sl.No |
| Orissa.ExtractSlNoAndCase | orissa_displayboard_scrapper.py:86-109 | empty details or "not in session" in any letter case give ("", details) |
| Orissa.ExtractShape | orissa_displayboard_scrapper.py:95-107 | either no Sl.No and the details unchanged, or a digit-run Sl.No, a stripped case and details holding a colon |
| Orissa.NoColonNoSlNo | orissa_displayboard_scrapper.py:100-107 | details without a colon give ("", details) |
| Orissa.SlNoCaseRoundTrip | orissa_displayboard_scrapper.py:100-104 | "LABEL : N. CASE" gives (N, CASE), e.g. "WKL : 4. WP(C) 19033/2023" |
| Orissa.MatchAfterTag | orissa_displayboard_scrapper.py:100 | the pattern matches at the colon after the label |
| Orissa.MatchAt | orissa_displayboard_scrapper.py:100 | colon, blanks, digits, dot, blanks and a line of text match with the digits and that text as groups |
| Orissa.WalkBound | orissa_displayboard_scrapper.py:158-199 | when each pair gives at most one record, the walk gives at most one per two rows |
| Orissa.WalkOrigin | orissa_displayboard_scrapper.py:166-199 | every record comes from a one-cell judge row and the row right after it; a judge row that ends the table gives nothing |
| Orissa.WalkShift | orissa_displayboard_scrapper.py:157-158 | dropping the first row and starting one row earlier is the same walk |
| Orissa.WellPaired | orissa_displayboard_scrapper.py:166-195 | n judge rows each followed by a row that gives a record give exactly n records, in order |
| Orissa.PairRecords | orissa_displayboard_scrapper.py:170-195 | a judge row and the row after it give at most one record |
| Orissa.DecodePair | orissa_displayboard_scrapper.py:167-192 | the loop body at a judge row with a row after it gives exactly the pair's record |
| Orissa.WalkTable | orissa_displayboard_scrapper.py:157-204 | the `while i < len(rows)` walk from the row after the header gives exactly the walk's records |
| Orissa.ScrapeDisplayBoard | orissa_displayboard_scrapper.py:139-204 | the border="1" tables, each walked in turn |
| Orissa.TableBound | orissa_displayboard_scrapper.py:157-199 | at most one record per two rows after the header |
| Orissa.HeaderIgnored | orissa_displayboard_scrapper.py:156-157 | the header row plays no part |
| Orissa.RecordOrigin | orissa_displayboard_scrapper.py:166-192 | each record pairs the judge row's text with the next row's court (cell 0) and case details (cell 1), that row having 2 cells or more and a court number |
| Orissa.JudgeRowAfterJudgeRow | orissa_displayboard_scrapper.py:170-195 | a one-cell row after a judge row is taken as its court row: nothing, and the walk resumes two rows on |
| Orissa.BoardLayout | orissa_displayboard_scrapper.py:157-199 | header, then n judge/court row pairs with court numbers, give exactly n records, the k-th from the k-th pair |
| Orissa.OtherTablesIgnored | orissa_displayboard_scrapper.py:143 | only border="1" tables contribute, wherever the others stand |
| Orissa.TablesInOrder | orissa_displayboard_scrapper.py:148 | records come table by table |
| Patna.ContentTrimmed | patna_display_board_scrapper.py:141-166 | whatever a cell holds, its content has no whitespace at either end |
| Patna.ExtractCaseInfoTrimmed | patna_display_board_scrapper.py:169-189 | both halves come out stripped, and an item number is found only next to " - " |
| Patna.ExtractCaseInfoRoundTrip | patna_display_board_scrapper.py:180-184 | "item - case" gives back (item, case) for a dash-free trimmed item and a trimmed case, e.g. "13 - C.MISC./459/2016 (FOR ADMISSION)" |
| Patna.ExtractCaseInfoNoDash | patna_display_board_scrapper.py:175-187 | without " - ": no item and the stripped text as case, except "NOT IN SESSION", which gives ("", "") |
| Patna.Contents | patna_display_board_scrapper.py:239 | one content per cell |
| Patna.PageView | patna_display_board_scrapper.py:234-257 | one read row per table row |
| Patna.PageViewAt | patna_display_board_scrapper.py:234-257 | row i of the page is row i read |
| Patna.HeaderRowIsFirst | patna_display_board_scrapper.py:233-243 | header_row_idx is the first row mentioning "COURT NUMBER" in any letter case, or 0 when none does |
| Patna.RowIsHeader | patna_display_board_scrapper.py:235-240 | one test of the search decides exactly whether the row is a header |
| Patna.FindHeader | patna_display_board_scrapper.py:233-243 | the search loop finds exactly header_row_idx |
| Patna.DecodeRow | patna_display_board_scrapper.py:253-297 | the loop body gives exactly the row's records |
| Patna.ScrapeDisplayBoard | patna_display_board_scrapper.py:225-300 | find the header, then decode every later row: exactly the page's records |
| Patna.DecodeRows | patna_display_board_scrapper.py:252-300 | the row loop gives the rows' records from start to the end, in order |
| Patna.RowStep | patna_display_board_scrapper.py:252 | one more row appends its records |
| Patna.RowShape | patna_display_board_scrapper.py:260-297 | at most two records, none below 2 cells and at most one below 4; none exactly when every court cell is empty; cells past the fourth are ignored |
| Patna.RowFields | patna_display_board_scrapper.py:264-297 | the first court comes from cells 0 and 1, the second from cells 2 and 3, item and case from extract_case_info, the raw case text kept whole |
| Patna.RowWellFormed | patna_display_board_scrapper.py:268-297 | every record of a row has the bench constants, the scrape time, a court number, and item and case read from its kept case text |
| Patna.ScrapeWellFormed | patna_display_board_scrapper.py:252-297 | the same for every record of the page |
| Patna.RowsWellFormed | patna_display_board_scrapper.py:252-297 | the same for any run of rows |
| Patna.StartsAfterHeader | patna_display_board_scrapper.py:240-252 | the rows up to and including the first header contribute nothing |
| Patna.HeaderRowIs | patna_display_board_scrapper.py:240-243 | the first header row is the one found |
| Patna.ScrapeAfter | patna_display_board_scrapper.py:252 | the rows after the header row are the ones decoded |
| Patna.ScrapeIs | patna_display_board_scrapper.py:233-252 | what the loop collects after the search is the page's records |
| Patna.NoHeaderSkipsFirstRow | patna_display_board_scrapper.py:233-252 | with no header row the first row is skipped all the same |
| Patna.NoHeaderRow | patna_display_board_scrapper.py:233 | with no header row header_row_idx stays 0 |
| Patna.ScrapeBound | patna_display_board_scrapper.py:252-297 | at most two records per row |
| Patna.RowsBound | patna_display_board_scrapper.py:252-297 | the same for any run of rows |
| Telangana.CourtParamAt | telangana_displayboard_scraper.py:158 | a `court=(\d+)` match gives a non-empty digit run |
| Telangana.CourtLink | telangana_displayboard_scraper.py:153-163 | a cell's court number, when it has one, is a non-empty digit run |
| Telangana.CourtLinkOf | telangana_displayboard_scraper.py:158-160 | a link "court-view?court=7" gives "7" |
| Telangana.CourtParamFirst | telangana_displayboard_scraper.py:158 | the first "court=" followed by digits gives those digits |
| Telangana.NoLinkBefore | telangana_displayboard_scraper.py:158 | no "court=" straddles the join of link-free text and "court=" |
| Telangana.NoStraddle | telangana_displayboard_scraper.py:158 | two occurrences of "court=" cannot overlap |
| Telangana.Span | telangana_displayboard_scraper.py:256-288 | cells_consumed is 1, 2 or 4, and 1 exactly when the court cell is the last of the row |
| Telangana.CourtAt | telangana_displayboard_scraper.py:249-307 | a court's record: its name, and running item, case and passed-over from the cells its span covers (only the running item for an ended session's two cells, nothing for a last cell) |
| Telangana.CourtName | telangana_displayboard_scraper.py:302 | the cell's text, or "Court <n>" when it has none |
| Telangana.DecodeCourt | telangana_displayboard_scraper.py:249-308 | one court of the walk gives exactly CourtAt's record and consumes its span |
| Telangana.DecodeRow | telangana_displayboard_scraper.py:234-313 | the `while idx < len(cells)` walk gives exactly the row's records |
| Telangana.WalkStep | telangana_displayboard_scraper.py:243-313 | one pass moves idx strictly forward, and the walk is what it emitted followed by the walk from the new idx |
| Telangana.ScrapeDisplayBoard | telangana_displayboard_scraper.py:212-313 | the records of the first table's rows after the header, in order |
| Telangana.WalkCourt | telangana_displayboard_scraper.py:245-311 | at a court cell the walk gives its record and resumes after its span |
| Telangana.StopsCourt | telangana_displayboard_scraper.py:311 | the walk lands on a court cell and resumes after its span |
| Telangana.StopsSkip | telangana_displayboard_scraper.py:312-313 | the walk steps over any other cell |
| Telangana.WalkSkip | telangana_displayboard_scraper.py:312-313 | a non-court cell gives nothing and the walk goes on at the next cell |
| Telangana.WalkEnd | telangana_displayboard_scraper.py:241 | past the last cell the walk gives nothing |
| Telangana.StopsAreCourts | telangana_displayboard_scraper.py:243-245 | every cell the walk lands on is a court cell at or after the start |
| Telangana.StopsLand | telangana_displayboard_scraper.py:243-245 | the landing cells are all court cells |
| Telangana.StopsFrom | telangana_displayboard_scraper.py:239-241 | the walk lands only at or after where it started |
| Telangana.StopsIncrease | telangana_displayboard_scraper.py:311-313 | the walk lands on cells in strictly increasing order (idx only grows, so it terminates) |
| Telangana.WalkStops | telangana_displayboard_scraper.py:297-308 | each landing cell gives exactly one record, in order; nothing is filtered (NS and ended courts included) |
| Telangana.NonCourtCellSkipped | telangana_displayboard_scraper.py:312-313 | a cell without a court link is stepped over |
| Telangana.LastCellCourt | telangana_displayboard_scraper.py:287-308 | a court cell that is last in its row still gives a record with only the court |
| Telangana.EndedCourtBeforeCourt | telangana_displayboard_scraper.py:260-279 | an ended session followed by another court's cell spans 2 cells, keeps the ended text as running item, and the next court is read from the following cell |
| Telangana.GroupRecords | telangana_displayboard_scraper.py:237-311 | one record per group of four cells |
| Telangana.RegularWalk | telangana_displayboard_scraper.py:280-311 | on a row of four-cell groups each led by a court cell whose session has not ended, every group gives one record from its own cells, in order |
| Telangana.RegularRow | telangana_displayboard_scraper.py:234-311 | such a row gives one record per four cells |
| Telangana.ShortRowSkipped | telangana_displayboard_scraper.py:234 | rows of fewer than 4 cells give nothing |
| MadhyaPradesh.FallbackCourtNumber | madhyapradsh_gwalior_display_scrapper.py:164-173 | the fallback never holds a newline |
| MadhyaPradesh.CourtNumber | madhyapradsh_gwalior_display_scrapper.py:151-173 | the court number is stripped, and without a strong/font pair it holds no newline |
| MadhyaPradesh.StripWithout | madhyapradsh_gwalior_display_scrapper.py:166 | stripping brings in no character the text lacked |
| MadhyaPradesh.StripSkipsBlank | madhyapradsh_gwalior_display_scrapper.py:166 | leading whitespace does not change what a text strips to |
| MadhyaPradesh.StripBetween | madhyapradsh_gwalior_display_scrapper.py:166 | a text whose first non-blank is at i and last at j-1 strips to s[i..j] |
| MadhyaPradesh.BeforeFirstSpan | madhyapradsh_gwalior_display_scrapper.py:168-170 | the first piece of the split reaches the first newline and no further |
| MadhyaPradesh.FirstLineFrame | madhyapradsh_gwalior_display_scrapper.py:166-170 | where a filled first line's non-blank middle and the stripped text's end sit |
| MadhyaPradesh.FirstPieceSpan | madhyapradsh_gwalior_display_scrapper.py:166-168 | the first piece of the stripped text starts at the first non-blank of the first line and stays within it |
| MadhyaPradesh.FirstPieceStrips | madhyapradsh_gwalior_display_scrapper.py:166-170 | that piece strips to the first line's non-blank middle |
| MadhyaPradesh.LineStrips | madhyapradsh_gwalior_display_scrapper.py:170 | the first line strips to its non-blank middle |
| MadhyaPradesh.FirstLineWhenFilled | madhyapradsh_gwalior_display_scrapper.py:164-170 | when the first line holds something besides whitespace, the fallback is that line stripped |
| MadhyaPradesh.OneLine | madhyapradsh_gwalior_display_scrapper.py:166-170 | a one-line text: the fallback strips it |
| MadhyaPradesh.BlankFirstLine | madhyapradsh_gwalior_display_scrapper.py:166-170 | a blank first line is skipped, because the text is stripped before it is split |
| MadhyaPradesh.FallbackIsFirstFilledLine | madhyapradsh_gwalior_display_scrapper.py:164-173 | the fallback is the first line holding anything besides whitespace, stripped ("" when none) |
| MadhyaPradesh.RowFields | madhyapradsh_gwalior_display_scrapper.py:259-309 | a row gives columns exactly when its class contains "record" and it has at least 7 cells |
| MadhyaPradesh.BoardRows | madhyapradsh_gwalior_display_scrapper.py:237-259 | the rows visited are those after the header of the first `board_id` table: one fewer than its rows, none without a table |
| MadhyaPradesh.ReadRow | madhyapradsh_gwalior_display_scrapper.py:261-285 | the row loop body reads exactly the row's columns |
| MadhyaPradesh.FieldPlacement | madhyapradsh_gwalior_display_scrapper.py:267-285 | court from cell 0, Sr. No 3, Case No 4, Petitioner 5, Respondent 6, Court Message 7 or ""; cells past the eighth are not read |
| Gwalior.RowRecords | madhyapradsh_gwalior_display_scrapper.py:259-309 | one record for a court row (class "record", 7 cells or more), none for any other row |
| Gwalior.DecodeRow | madhyapradsh_gwalior_display_scrapper.py:260-309 | the loop body gives exactly the row's record |
| Gwalior.ScrapeDisplayBoard | madhyapradsh_gwalior_display_scrapper.py:234-309 | the records of the board's rows after the header, in order |
| Gwalior.RecordCount | madhyapradsh_gwalior_display_scrapper.py:259-309 | the records number the court rows after the header |
| Gwalior.RecordOrigin | madhyapradsh_gwalior_display_scrapper.py:259-306 | every record is that of a court row after the header |
| Gwalior.OtherRowIgnored | madhyapradsh_gwalior_display_scrapper.py:262-263 | a row that is not a court row adds nothing, wherever it stands |
| Gwalior.EveryRowACourt | madhyapradsh_gwalior_display_scrapper.py:259-306 | when every row after the header is a court row, record k is row k+1's |
| Jabalpur.RowRecords | madhyapradesh_jabalpur_display_scrapper.py:257-309 | one record for a court row, none for any other, each carrying BENCH_NAME and SUB_BENCH_NO |
| Jabalpur.DecodeRow | madhyapradesh_jabalpur_display_scrapper.py:258-309 | the loop body gives exactly the row's record |
| Jabalpur.ScrapeDisplayBoard | madhyapradesh_jabalpur_display_scrapper.py:232-309 | the records of the board's rows after the header, in order |
| Jabalpur.SameBoardAsGwalior | madhyapradesh_jabalpur_display_scrapper.py:268-304 | row for row, the Jabalpur records are the Gwalior records with the bench columns added |
| Jabalpur.ScrapeAsGwalior | madhyapradesh_jabalpur_display_scrapper.py:257-309 | the page gives as many records at Jabalpur as at Gwalior, each the Gwalior one with the bench columns |
| Jabalpur.RecordCount | madhyapradesh_jabalpur_display_scrapper.py:257-309 | the records number the court rows after the header, and each carries the bench name and sub-bench number |
| Driver.RunKeepsOrdered | PortBlair_display_scrapper_api.py:779-836 | last_backup_cycle never runs ahead of cycle_count |
| Driver.StepBackup | PortBlair_display_scrapper_api.py:829-836 | a backup is written exactly when the cycle saved, the interval had elapsed and the copy succeeded; it is a copy of the whole day-file, and only then does last_backup_cycle move, to the current cycle |
| Driver.DateChangeResets | PortBlair_display_scrapper_api.py:788-799 | a date change restarts at cycle 1 with last_backup_cycle 0 and a fresh day-file holding at most this cycle's rows |
| Driver.DayFileIsSavedRows | PortBlair_display_scrapper_api.py:784-831 | within a day the day-file is what it held followed by every batch saved since, in order, and every pass counts one cycle |
| Driver.FirstCycleUntilSaved | PortBlair_display_scrapper_api.py:780-831 | first_cycle stays True until the first successful save of the day |
| Driver.NoBackupBeforeInterval | PortBlair_display_scrapper_api.py:833-836 | no backup is written while fewer than BACKUP_CYCLE_INTERVAL cycles have passed since the last one |
| Driver.BackupsArePrefixes | PortBlair_display_scrapper_api.py:471-501 | every backup of a day is a prefix of that day's file at any later point |
| Driver.BackupCadence | PortBlair_display_scrapper_api.py:32 | when every cycle saves and every copy succeeds, n cycles of a fresh day write exactly n / BACKUP_CYCLE_INTERVAL backups, the last at the latest multiple of the interval |
| Driver.SmoothStep | PortBlair_display_scrapper_api.py:829-836 | a cycle that saves and copies counts itself and backs up exactly when one is due |
| Driver.DayDriver.constructor | PortBlair_display_scrapper_api.py:779-781 | the loop starts at cycle 0, first_cycle True, last backup 0, nothing written |
| Driver.DayDriver.SaveToExcel | PortBlair_display_scrapper_api.py:697-732 | an empty batch or a failed write returns False and leaves the file alone; otherwise the batch is appended |
| Driver.DayDriver.CreateBackup | PortBlair_display_scrapper_api.py:471-501 | a missing or empty day-file or a failed write returns False; otherwise a copy of the whole day-file is added to the backups |
| Driver.DayDriver.RunCycle | PortBlair_display_scrapper_api.py:784-836 | one pass of the loop moves the state exactly as Step says |
| Driver.GwaliorStepKeepsInStep | madhyapradsh_gwalior_display_scrapper.py:454-475 | the day-file is always the backup file followed by the rows still pending |
| Driver.GwaliorPendingGrows | madhyapradsh_gwalior_display_scrapper.py:460-475 | a save with no backup due, or whose backup fails, keeps the batch in the pending buffer and leaves the backup file alone |
| Driver.GwaliorBackupFlushes | madhyapradsh_gwalior_display_scrapper.py:464-475 | a successful backup appends exactly the pending rows and this batch to the backup file and empties the buffer |
| Driver.GwaliorBackupOnFirstSaveOfDay | madhyapradsh_gwalior_display_scrapper.py:420-475 | cycle_count is not reset on a new day, so once the run has reached the interval the first save of every new day is backed up at once |
| Driver.GwaliorDriver.constructor | madhyapradsh_gwalior_display_scrapper.py:413-416 | the loop starts at cycle 0 with nothing pending or written |
| Driver.GwaliorDriver.SaveToExcel | madhyapradsh_gwalior_display_scrapper.py:341-374 | an empty batch or a failed write returns False and leaves the file alone; otherwise the batch is appended |
| Driver.GwaliorDriver.SaveToBackup | madhyapradsh_gwalior_display_scrapper.py:85-126 | no rows or a failed write returns False; otherwise the rows are appended to the backup file |
| Driver.GwaliorDriver.RunCycle | madhyapradsh_gwalior_display_scrapper.py:418-479 | one pass of Gwalior's loop moves the state exactly as GwaliorStep says |
| Driver.SingleRunSummary | orissa_displayboard_scrapper.py:304-331 | every pass counts, the file holds every saved batch in order, and first_cycle is False from the first successful save on |
| Driver.SingleFileDriver.constructor | orissa_displayboard_scrapper.py:304-305 | the loop starts at cycle 0, first_cycle True, file empty |
| Driver.SingleFileDriver.SaveToExcel | orissa_displayboard_scrapper.py:230-276 | an empty batch or a failed write returns False and leaves the file alone; otherwise the batch is appended |
| Driver.SingleFileDriver.RunCycle | orissa_displayboard_scrapper.py:307-331 | one pass of the loop moves the state exactly as SingleStep says |
| Text.DigitRunEnd | chattisgarh_display_board_api.py:136 | the end of the maximal run of digits from a position (the `\d+` of a match) |
| Text.SpaceRunEnd | allahabad_display_scraper_api.py:282 | the end of the maximal run of whitespace from a position (the `\s+` of a match) |
| Text.UntilChar | PortBlair_display_scrapper_api.py:528 | `[^c]*` at a position (the `[^']+` of the eye button, and the `.+` of Orissa's pattern, which stops at a newline): the run holds no c and ends at the first c or at the end |
| Text.Strip | PortBlair_display_scrapper_api.py:581 | str.strip(): the result has no whitespace at either end, is shorter or equal, and is empty exactly when the text is all whitespace |
| Text.StripPadded | PortBlair_display_scrapper_api.py:535 | stripping removes exactly the whitespace padding: a text with non-blank ends padded on both sides strips back to itself |
| Text.StripIdempotent | PortBlair_display_scrapper_api.py:581 | stripping twice is stripping once |
| Text.IndexOf | patna_display_board_scrapper.py:181 | the first occurrence of a pattern at or after a position, None exactly when there is none |
| Text.IndexOfContains | dharward_sisplay_scraper.py:197 | the search finds the pattern exactly when `p in s` holds |
| Text.ContainsEmbedded | dharward_sisplay_scraper.py:197 | a text built around a pattern contains it |
| Text.FindChar | madhyapradsh_gwalior_display_scrapper.py:168 | the first position holding a character, None exactly when it does not occur |
| Text.Split | PortBlair_display_scrapper_api.py:535 | str.split(sep): at least one piece, no piece holds the separator, and a text without it is its own single piece |
| Text.SplitJoin | PortBlair_display_scrapper_api.py:535 | joining the pieces back with the separator gives the text |
| Text.JoinSplit | PortBlair_display_scrapper_api.py:535 | splitting undoes joining when no piece holds the separator |
| Text.BeforeFirst | chattisgarh_display_board_api.py:133 | split(sep)[0]: no separator in it, and it is the whole text or the text up to its first separator |
| Text.BeforeFirstIsFirstPiece | chattisgarh_display_board_api.py:133 | it is the first piece of the split |
| Text.AfterLast | jharkhand_display_scraper_api.py:62 | split(sep)[-1]: no separator in it, and the whole text when there is no separator |
| Text.AfterLastOf | jharkhand_display_scraper_api.py:62 | for x + sep + y with y free of the separator, it is y |
| Text.Remove | PortBlair_display_scrapper_api.py:581 | replace(c, ""): exactly the characters other than c are kept |
| Text.RemoveSpaces | madras_display_scrapper_api.py:413 | re.sub(r'\s+', '', s): exactly the non-whitespace characters are kept |
| Text.Lower | chattisgarh_display_board.py:152 | str.lower(): same length, each ASCII capital lowered |
| Text.Upper | patna_display_board_scrapper.py:240 | str.upper(): same length, each ASCII small letter raised |
| Text.CollapseSpaces | kerala_display_scraper_api.py:48 | re.sub(r'\s+', ' ', s): the only whitespace left is single blanks, none next to another, empty only for empty text |
| Text.CollapseSpacesFixesCollapsed | kerala_display_scraper_api.py:48 | text already collapsed is unchanged |
| Text.CleanText | kerala_display_scraper_api.py:45-50 | clean_text: empty text gives "" |
| Text.CleanTextIsClean | kerala_display_scraper_api.py:45-50 | clean text has no whitespace at its ends and its only whitespace is single blanks |
| Text.CleanTextIdempotent | kerala_display_scraper_api.py:45-50 | cleaning clean text changes nothing |
| Text.NatToString | PortBlair_display_scrapper_api.py:621 | str(n): a non-empty numeral with no leading zero whose value is n |
| Text.PyIntOfNumeral | PortBlair_display_scrapper_api.py:310 | int() reads a plain numeral as its value |
| Text.PyIntRejects | PortBlair_display_scrapper_api.py:310 | int() raises on text holding a character other than whitespace, a sign, a digit or '_' |
| Text.PyIntRoundTrip | PortBlair_display_scrapper_api.py:310 | int(str(n)) == n |
| Text.IntOrZero | allahabad_display_scraper_api.py:43-53 | `int(s) if s else 0` with ValueError caught as 0: the value int() reads, 0 where it raises |
| Text.IntOrZeroRoundTrip | allahabad_display_scraper_api.py:43-53 | a serial written with str() reads back unchanged |
| Scan.Search | PortBlair_display_scrapper_api.py:58 | re.search: a hit is a match at or after the start with none before it; no hit means no position matches |
| Scan.SearchGroup | PortBlair_display_scrapper_api.py:58-59 | match.group(1): a capture exactly when some position matches |
| Scan.SearchGroupAt | PortBlair_display_scrapper_api.py:58-59 | a match at k with none before it is the capture returned |
| Scan.SearchAt | PortBlair_display_scrapper_api.py:58 | a match at k with none before it is the hit returned |
| Scan.SearchGroupNone | PortBlair_display_scrapper_api.py:58-66 | when no position matches, the search returns None |
| Scan.DigitsAt | delhi_display_scrapper_api.py:106 | `\d+` at a position: matches exactly when a digit stands there and captures the whole run |
| Scan.MatchersCaptureDigits | PortBlair_display_scrapper_api.py:58-63 | `\d+`, `/(\d+)/`, `/(\d+)`, `\b(\d+)\b` and `/\s*(\d+)\s*/` each capture a non-empty run of digits |
| Scan.SearchCapturesDigits | chattisgarh_display_board_api.py:89-94 | the first match of any of those patterns captures a non-empty run of digits |
| Scan.NoDigitsNoMatch | delhi_display_scrapper_api.py:53-58 | a text without digits matches none of them |
| Scan.StandaloneFirstRun | madras_display_scrapper_api.py:56 | the first digit run, with no word character beside it, is what `\b(\d+)\b` finds |
| Scan.StandaloneRunAt | PortBlair_display_scrapper_api.py:91 | the same, the run given by position in the text |
| Scan.FirstStandaloneFound | madras_display_scrapper_api.py:56 | the first digit run delimited by non-word characters is what `\b(\d+)\b` finds, even after digits inside longer words |
| Scan.DigitRunStable | PortBlair_display_scrapper_api.py:58 | appending text does not move the end of a digit run that stops inside the prefix or meets a non-digit |

## Left out

- The browser: Selenium set-up, page loads, waits, bench and dropdown selection and the polling for a populated table. The decoders take the page's tables, rows and cells (`Dom`) as input.
- CAPTCHA handling at Port Blair: image download, OpenCV preprocessing, Tesseract OCR and the manual-entry wait. This is image processing and timed waits.
- HTML parsing: the text of a cell (`Dom.Cell.text`) is whatever the site's accessor returns (Selenium `.text`, BeautifulSoup `get_text`, an `innerHTML` search), taken as given; what it means differs by site. At Allahabad, Dharwad, Kerala, Orissa, Telangana and the Madhya Pradesh benches it is the raw accessor output, and the model applies the whitespace collapse and strip of `clean_text`/`extract_cell_text` itself (`Dom.CellText`). At Andhra Pradesh (andhrapradesh_display_scrapper_api.py:295-304), the Chhattisgarh API scraper (chattisgarh_display_board_api.py:353-362), the Chhattisgarh board (chattisgarh_display_board.py:67-85) and both Jharkhand scrapers (jharkhand_display_scraper.py:72-90, jharkhand_display_scraper_api.py:287-296) it is taken to be `extract_cell_text`'s result already, collapsed and stripped, and the decoders read it unchanged. Elsewhere only what the scrapers do to the text afterwards (`.strip()`, `.replace`) is modelled.
- Spreadsheet and file I/O: pandas reads, concatenation and writes, folder creation, file names built from the date, and opening the file on the first cycle. The day-file and the backups are sequences of records that grow by appending, and whether a write succeeds is an input of each cycle.
- Whether the date folder changed is an input of each cycle (`Cycle.dateChanged`). Reading the clock and formatting dates and 12-hour times are library behaviour.
- The network: `requests.post` and the HTTP status handling. The outcome of each POST is an input (`Ingest.Outcome`). `PostAll` is not wired into the driver step because its result changes no loop counter.
- The success-rate percentage printed after posting. It is float arithmetic and divides by zero on an empty batch, but `main` posts only non-empty batches.
- The `ENABLE_EXCEL_SAVING` and `ENABLE_API_POSTING` switches are taken as on (their defaults). The driver models the loop with saving enabled.
- Console output, `time.sleep` between cycles, the header-printing loops, `KeyboardInterrupt` and shutdown.
- Exceptions raised by the browser inside a row's `try` block. Such a row is skipped and the loop goes on. The only in-row exceptions modelled are those of `int()` on page text (Andhra Pradesh colspan, Chhattisgarh rowspan).
- Dharwad keeps each data table with its page index. Only the table is kept here, because the index is printed and never read.
- `\d`, `\w`, `str.lower` and `str.upper` are modelled on ASCII. Python's Unicode digits and case mappings beyond ASCII are not.
