# Auto RIS Builder, modelled in Dafny

This project models the core of the Auto RIS Builder. The builder is a small web application that looks up bibliographic metadata in the Crossref registry and exports it as an RIS file for EndNote. The repository holds two near-identical versions of the application, `app_streamlit.py` and `app_streamlit_fixed.py`. Both are modelled once. The datatype `Normalizer.Variant = Baseline | Fixed` selects between them where they behave differently.

The model has six modules:

- `Wrappers`: `Option` and `Result`.
- `Text`: the Python string operations the program relies on, over ASCII:
  - `strip`, `lower` and `startswith`;
  - `split()`, `splitlines()` and `"\n".join`;
  - the `\s+` collapse;
  - `str(int(...))`.
- `Identifiers`: three extractors.
  - The DOI regular expression `10\.\d{4,9}/[-._;()/:A-Z0-9]+` (case-insensitive), as a leftmost scanner with a greedy tail.
  - The PDF title guess: the first stripped line of at least four words, 10 to 200 characters long, that does not start with `arxiv:`, `doi:`, `issn:` or `copyright`.
  - The HTML `<title>` grab: lazy match, whitespace collapsed.
- `Normalizer`: `clean`, `normalize_author`, the type table, `crossref_first_year`, the page split, the JATS abstract clean-up, keywords and `crossref_to_meta`. A Crossref work record is a datatype with `Option` fields. Date parts are `seq<seq<Option<int>>>`, where `None` is a value `int()` rejects.
- `Ris`: `ris_escape`, `to_ris_lines` (as a method that appends lines) and `meta_to_ris`. It also has a reader, `ParseLines`, that reads a block back into tagged entries. The reader exists to state round trips.
- `Pipeline`: per-item resolution, the audit entry for each input, the batch loops that fill `results` and `audit`, and single-input mode.
  - Every call that leaves the program is a field of `Services`: writing the temporary PDF file, PDF text extraction, the DOI lookup, the title search and the page download. Each is a total function. `writeTemp` returns an `Option`: Some(message) when the write raises, None when it succeeds. The others return a `Result`, where a `Failure` stands for a raised exception and carries its message.
  - `Seqs` holds a few generic sequence helpers.

## Model

| member | source | states |
|---|---|---|
| Text.Strip | app_streamlit.py:48-49 | the result has no leading or trailing whitespace, and a value that has none is returned unchanged |
| Text.StripIsCore | app_streamlit.py:48-49 | the stripped text is a contiguous slice of the input, and only whitespace lies before and after it |
| Text.StartsWithCiIsLowerPrefix | app_streamlit.py:189 | the case-insensitive prefix test holds exactly when the lower-cased line starts with the lower-case prefix |
| Text.WordCountIsLenWords | app_streamlit.py:189 | the word count used by the title guess is the length of `split()` |
| Text.SquashIsJoinedWords | app_streamlit.py:248 | replacing each whitespace run by one space and then stripping gives the words joined by single spaces |
| Text.SplitLines | app_streamlit.py:187 | no part produced by `splitlines` contains a line break, and non-empty text yields at least one part |
| Text.SplitLinesOnFeeds | app_streamlit.py:187 | on text whose only line break is `\n`, the lines are exactly the pieces of `split("\n")`, less the one empty piece a final `\n` leaves; empty text has no lines |
| Text.IntToStringRoundTrip | app_streamlit.py:114 | `str(n)` is a valid integer literal that parses back to `n` |
| Text.SplitJoin | app_streamlit.py:197 | joining with a line feed and then splitting at line feeds recovers parts that hold no line feed |
| Text.JoinSplit | app_streamlit.py:197 | splitting at line feeds and then joining with a line feed recovers the text |
| Identifiers.DigitRun | app_streamlit.py:44 | the longest run of ASCII digits starting at the given position |
| Identifiers.MatchEndSound | app_streamlit.py:44 | when the scanner reports an end, the slice it covers is a DOI: `10.`, 4 to 9 digits, `/`, then one or more token characters, not followed by another token character |
| Identifiers.MatchEndComplete | app_streamlit.py:44 | every DOI match at a position is the one the scanner reports there |
| Identifiers.SearchFromSpec | app_streamlit.py:97-99 | from a start position, the search fails exactly when no position has a match; otherwise it returns the leftmost match |
| Identifiers.FindDoiSpec | app_streamlit.py:97-99 | `find_doi_in_text` is None exactly when the text holds no match; otherwise it is the leftmost maximal match |
| Identifiers.FirstTitleLine | app_streamlit_fixed.py:119-124 | None exactly when no stripped line qualifies; otherwise the first qualifying stripped line, with every earlier line failing the test |
| Identifiers.GuessTitleFromText | app_streamlit.py:186-192 | the loop with early return gives the first qualifying stripped line of `splitlines()`, or None |
| Identifiers.CloseTagFrom | app_streamlit.py:245 | the first case-insensitive `</title>` at or after a position, or None when none exists |
| Identifiers.TitleGroupAt | app_streamlit.py:245 | a result means a case-insensitive `<title` at this position, then non-`>` characters and a `>`, then the group, which stops at the first `</title>` |
| Identifiers.TitleGroupAtComplete | app_streamlit.py:245 | any such title element starting at the position is the one reported |
| Identifiers.TitleSearchSpec | app_streamlit.py:245 | the search fails exactly when no position holds a title element; otherwise it returns the match at the first such position |
| Identifiers.HtmlTitle | app_streamlit.py:245-248 | "" when the page has no title element; otherwise the group's words joined by single spaces, and always stripped |
| Normalizer.Clean | app_streamlit.py:48-49 | an absent value gives ""; the result is stripped; a stripped value is returned unchanged |
| Normalizer.NormalizeAuthor | app_streamlit.py:51-56 | `family, given` when both cleaned parts are non-empty; otherwise the non-empty part, with family preferred; "" exactly when both are empty |
| Normalizer.NormalizeAuthors | app_streamlit_fixed.py:75 | one normalised author per input author, in order, each stripped |
| Normalizer.RisType | app_streamlit.py:120-121 | the mapped tag of the lower-cased type when the table has it, else GEN; always one of the table's tags |
| Normalizer.RisTypeIgnoresCase | app_streamlit.py:120 | the type's letter case does not matter |
| Normalizer.RisTypeNotGen | app_streamlit.py:31-42 | the tag differs from GEN exactly for the eight types that the table maps to other tags |
| Normalizer.FirstText | app_streamlit.py:122-127 | "" for a missing, non-list or empty list; otherwise the cleaned first element |
| Normalizer.FirstTextVariantsAgree | app_streamlit_fixed.py:73-74 | the compact title and journal expression of the second file gives the same value |
| Normalizer.FirstYear | app_streamlit.py:108-117 | None exactly when no date field has a parseable first part; otherwise `str` of the first part of the first field that has one |
| Normalizer.FirstYearPrefersPrint | app_streamlit.py:109-114 | a parseable print date always wins |
| Normalizer.FirstYearReadsBack | app_streamlit.py:112-114 | the year text parses back to the integer of the first qualifying date field |
| Normalizer.CrossrefFirstYear | app_streamlit.py:108-117 | the loop over the four keys, with early return, computes FirstYear |
| Normalizer.SplitPages | app_streamlit.py:131-136 | both pieces are stripped, and the start page never holds a hyphen |
| Normalizer.SplitPagesWhole | app_streamlit.py:135-136 | a cleaned page without a hyphen is the start page, and the end page is "" |
| Normalizer.SplitPagesAtHyphen | app_streamlit.py:133-134 | with a hyphen, the pieces are the stripped text before and after the first hyphen |
| Normalizer.SplitPagesRange | app_streamlit.py:133-134 | `sp + "-" + ep`, with `sp` hyphen-free and both stripped, splits back into `sp` and `ep` |
| Normalizer.SplitPagesRangeExample | app_streamlit.py:133-134 | "100-110" gives the pages "100" and "110" |
| Normalizer.SplitPagesSingleExamples | app_streamlit.py:131-136 | "100" gives "100" and ""; an absent page gives "" and "" |
| Normalizer.TagLength | app_streamlit.py:140 | a non-zero result is the length of a `<[^>]+>` match at the head of the text: it opens with `<`, closes with the first `>`, and holds at least one character between |
| Normalizer.TagLengthComplete | app_streamlit.py:140 | text that opens with `<`, then a character other than `>`, and has a `>` further on always starts a match |
| Normalizer.ReplaceTags | app_streamlit.py:140 | the result holds no tag and is no longer than the input; tag-free text is unchanged |
| Normalizer.ReplaceTagsPlain | app_streamlit.py:140 | text without `<` is copied unchanged in front of the replacement of what follows it |
| Normalizer.ReplaceTagsSplice | app_streamlit.py:140 | text without `<` is copied as it is, the match that follows it becomes one space, and the replacement goes on after the match |
| Normalizer.NoTagStrip | app_streamlit.py:140 | stripping tag-free text leaves it tag-free |
| Normalizer.CleanAbstract | app_streamlit.py:138-140 | the cleaned abstract as it is unless it starts with `<jats:`; otherwise its tags become spaces and it is stripped, leaving no tag; always stripped |
| Normalizer.StringItems | app_streamlit.py:145 | at most one keyword per subject element, each stripped |
| Normalizer.StringItemsAppend | app_streamlit.py:145 | filtering keeps order and distributes over concatenation |
| Normalizer.StringItemsAllStrings | app_streamlit.py:145 | on a list of strings, keyword `k` is the stripped element `k` |
| Normalizer.CharKeywords | app_streamlit_fixed.py:81 | iterating a string subject gives one keyword per character: "" for whitespace, else the character itself |
| Normalizer.Keywords | app_streamlit.py:142-145 | no keywords for an absent subject; the stripped string elements for a list; nothing for a string or an object in the first file, and one keyword per character or per key in the second; always stripped |
| Normalizer.KeyKeywords | app_streamlit_fixed.py:81 | iterating an object subject gives its keys in order, each stripped |
| Normalizer.KeywordsAgree | app_streamlit_fixed.py:81 | both versions agree when the subject is absent or a list |
| Normalizer.KeywordsDiverge | app_streamlit_fixed.py:81 | on the subject "ab", the first file gives no keywords and the second gives "a" and "b" |
| Normalizer.KeywordsDivergeOnObject | app_streamlit_fixed.py:81 | on the subject object with the one key " x ", the first file gives no keywords and the second gives "x" |
| Normalizer.CrossrefToMetaNormalized | app_streamlit.py:119-162 | every text field is stripped; the type is a table tag; the year is an integer literal; the start page has no hyphen; authors and year are as normalised |
| Normalizer.EmptyRecordDefaults | app_streamlit.py:147-162 | an empty record gives GEN, empty texts, no authors, no year and no keywords |
| Normalizer.UnknownTypeIsGen | app_streamlit.py:121 | a record whose type the table lacks has type GEN |
| Normalizer.CrossrefToMetaVariantsAgree | app_streamlit_fixed.py:71-85 | both versions normalise every record the same way when its subject is absent or a list |
| Ris.RisEscapeSpec | app_streamlit.py:58-59 | the escaped value holds no line feed and is stripped; without line feeds it is only stripped; a stripped value only has its line feeds turned into spaces |
| Ris.AppendPlain | app_streamlit.py:72-77 | appends the unescaped field's line exactly when the value is non-empty |
| Ris.AppendEscaped | app_streamlit.py:66-71 | appends the escaped field's line exactly when the value is non-empty |
| Ris.AppendRepeated | app_streamlit.py:78-80 | the loop appends one escaped line per non-empty value, in order |
| Ris.ToRisLines | app_streamlit.py:61-95 | the appending method returns exactly the record's block |
| Ris.EntriesFraming | app_streamlit.py:63-94 | the entries start with TY and end with ER, and there are at least two |
| Ris.RisLinesFraming | app_streamlit.py:63-64 | the first line is `TY  - ` plus the type (GEN when empty), the last is `ER  - `, and there are at least two lines |
| Ris.EntriesInOrder | app_streamlit.py:61-95 | the entries in full: TY, then TI, T2 and PB escaped, then PY, VL and IS, each authors' line, SP, EP, DO and UR, AB escaped, each keyword's line, then ER; optional fields only when non-empty |
| Ris.EntriesOrdered | app_streamlit.py:61-95 | the tags come in the fixed order TY, TI, T2, PB, PY, VL, IS, AU, SP, EP, DO, UR, AB, KW, ER |
| Ris.RisLinesOrdered | app_streamlit_fixed.py:33-51 | the lines' two-letter tags come in that fixed order |
| Ris.LineFields | app_streamlit.py:64 | a line is its tag, the separator `  - ` and its value, at fixed offsets |
| Ris.EntriesOfRank | app_streamlit.py:66-94 | the entries with a given tag are exactly that tag's section of the record |
| Ris.RepeatedEntriesAreNonEmpty | app_streamlit.py:78-80 | a repeated tag has one entry per non-empty value, in order, each escaped |
| Ris.AuthorEntries | app_streamlit.py:78-80 | the AU entries are the escaped non-empty authors, in input order, and there are as many as non-empty authors |
| Ris.KeywordEntries | app_streamlit.py:91-93 | the KW entries are the escaped non-empty keywords, in input order |
| Ris.TitleEntry | app_streamlit.py:66-67 | a TI entry appears exactly when the title is non-empty, holding the escaped title |
| Ris.DoiEntry | app_streamlit.py:85-86 | a DO entry appears exactly when the DOI is non-empty, holding the DOI as it is |
| Ris.YearEntry | app_streamlit.py:72-73 | a PY entry appears exactly when the year is present and non-empty |
| Ris.OnlyTitleEntries | app_streamlit.py:61-95 | a record with only a title gives TY GEN, the escaped title and ER |
| Ris.TitleOnlyExample | app_streamlit.py:61-95 | the title "Test" alone gives the lines `TY  - GEN`, `TI  - Test`, `ER  - ` |
| Ris.ParseLineRoundTrip | app_streamlit.py:64 | a line with a two-letter tag reads back as its tag and value |
| Ris.ParseRender | app_streamlit.py:61-95 | entries with two-letter tags, once rendered, read back unchanged |
| Ris.RisLinesRoundTrip | app_streamlit.py:61-95 | reading a block back gives exactly the record's entries |
| Ris.EscapedFieldRoundTrip | app_streamlit.py:58-59 | a stripped value comes back with its line feeds turned into spaces, and unchanged when it has none |
| Ris.NormalizedRoundTrip | app_streamlit.py:66-86 | for a normalised record, the block read back holds the title (line feeds aside) and the DOI exactly when they are non-empty |
| Ris.CountRender | app_streamlit.py:64 | rendering preserves how often each entry occurs |
| Ris.OneEndOfRecord | app_streamlit.py:94 | a block holds exactly one `ER  - ` line |
| Ris.RisLinesSingleLine | app_streamlit.py:61-95 | no line of a block holds a line feed when the unescaped fields hold none |
| Ris.NormalizedLineSafe | app_streamlit.py:147-162 | a normalised record whose volume, issue, pages, DOI and URL hold no line feed is safe to write |
| Ris.RisDocument | app_streamlit.py:194-198 | the document is "" exactly for no records, and otherwise ends with a line feed |
| Ris.MetaToRis | app_streamlit.py:194-198 | the loop that collects blocks gives the document |
| Ris.JoinBlocks | app_streamlit_fixed.py:126-127 | joining the blocks equals joining all their lines |
| Ris.RisDocumentIsLines | app_streamlit_fixed.py:126-127 | the document is every line of every block, each followed by a line feed |
| Ris.RisDocumentSplit | app_streamlit.py:194-198 | when no record's type, year, volume, issue, pages, DOI or URL holds a line feed, splitting the document at line feeds gives every block's lines in order, then "" |
| Ris.AllLinesEndOfRecord | app_streamlit.py:194-198 | the blocks together hold one `ER  - ` line per record |
| Ris.RisDocumentRecords | app_streamlit.py:194-198 | when no record's type, year, volume, issue, pages, DOI or URL holds a line feed, the document's lines hold exactly one `ER  - ` line per record |
| Pipeline.LogRouteNamesDistinct | app_streamlit.py:293-350 | the audit route names `""`, `doi`, `url_doi`, `url_title`, `pdf_doi`, `pdf_title`, `pdf_error`, `url_error` are pairwise distinct |
| Pipeline.Prefix | app_streamlit.py:179 | `text[:n]`: a prefix of at most n characters, and the whole text when it is shorter |
| Pipeline.ExtractText | app_streamlit_fixed.py:94-117 | a failed write of the temporary file raises in both files; otherwise at most 100000 (first file) or 120000 (second file) characters of the backends' text, and a backend failure raises in the first file and gives "" in the second |
| Pipeline.SearchByTitle | app_streamlit.py:164-172 | a blank title gives no hit without a call; otherwise the registry's answer |
| Pipeline.FetchRoute | app_streamlit.py:101-106 | the DOI lookup succeeds exactly when the registry call does, and its record is resolved by the given route |
| Pipeline.SearchRoute | app_streamlit.py:304-309 | resolved by the given route exactly when the title search returns a hit; unresolved when there is none; failing when the search fails |
| Pipeline.ResolveText | app_streamlit.py:296-309 | a PDF's text resolves only by `pdf_doi` or `pdf_title`, and by `pdf_doi` whenever it holds a DOI |
| Pipeline.ResolvePdf | app_streamlit.py:295-309 | a PDF resolves only by `pdf_doi` or `pdf_title` |
| Pipeline.ResolvePage | app_streamlit.py:327-343 | a page resolves only by `url_doi` or `url_title` |
| Pipeline.ResolveItem | app_streamlit.py:322-343 | a list item resolves by `doi` exactly when it holds a DOI, and otherwise by `url_doi` or `url_title` |
| Pipeline.Record | app_streamlit.py:310-316 | the audit entry for an outcome: success exactly when a record was found, with its route name and normalised record; the error route and message when a call raised; route "" when unresolved |
| Pipeline.PdfEntry | app_streamlit.py:293-316 | each PDF is logged under its file name; routes are `pdf_doi`, `pdf_title`, `""` or `pdf_error`; an error is recorded exactly with `pdf_error` |
| Pipeline.ItemEntry | app_streamlit.py:318-350 | each item is logged under itself; routes are `doi`, `url_doi`, `url_title`, `""` or `url_error`; an error is recorded exactly with `url_error` |
| Pipeline.ItemDoiRoute | app_streamlit.py:322-325 | an item is logged with route `doi` exactly when it holds a DOI and the lookup of the whole item succeeds, and its record is that lookup's |
| Pipeline.DoiItemIgnoresPages | app_streamlit.py:322-325 | an item that holds a DOI never downloads a page or searches a title |
| Pipeline.PageDoiFirst | app_streamlit.py:329-333 | a page that holds a DOI never leads to a title search; on success the route is `url_doi` with the lookup of the page's DOI |
| Pipeline.PageWithoutClues | app_streamlit.py:334-348 | a page with neither a DOI nor a title gives an unresolved entry with route "" |
| Pipeline.PdfDoiFirst | app_streamlit.py:296-302 | a PDF whose text holds a DOI never leads to a title search, and is logged as `pdf_doi` or `pdf_error` |
| Pipeline.PdfTitleRoute | app_streamlit.py:303-309 | `pdf_title` means the text holds no DOI, the guessed title is non-empty, the search found a hit, and the record is that hit |
| Pipeline.GuessTitleStripped | app_streamlit.py:188-191 | a guessed title is stripped |
| Pipeline.TempWriteFailure | app_streamlit_fixed.py:95 | when the temporary file cannot be written, either file logs `pdf_error` with the exception's message |
| Pipeline.ExtractFailureDivergence | app_streamlit_fixed.py:97-100 | once the temporary file is written, on a failing PDF backend the first file logs `pdf_error` with the message, and the second logs an unresolved entry with route "" |
| Pipeline.KeptLines | app_streamlit.py:286-291 | the kept items are non-empty stripped lines, no more than the lines |
| Pipeline.KeptLinesMember | app_streamlit_fixed.py:190 | a text is an item exactly when it is non-empty and is the stripped form of some line |
| Pipeline.KeptLinesSnoc | app_streamlit.py:286-291 | each line adds its stripped form when that is non-blank, and nothing otherwise |
| Pipeline.CollectItems | app_streamlit.py:286-291 | the loop over `splitlines()` collects exactly the items |
| Pipeline.SuccessesAppend | app_streamlit.py:344-348 | the results of two audit runs concatenate |
| Pipeline.SuccessesMember | app_streamlit.py:344-346 | a record is among the results exactly when some successful audit entry carries it |
| Pipeline.NoSuccesses | app_streamlit.py:347-348 | an audit without successes gives no results |
| Pipeline.BatchOnePerInput | app_streamlit.py:293-350 | one audit entry per PDF and then one per item, in input order, each under its input's name |
| Pipeline.BatchRoutes | app_streamlit.py:293-350 | the PDF entries use PDF routes and the item entries use item routes |
| Pipeline.BatchIsolation | app_streamlit.py:315-316 | an input's entry depends on that input alone, not on any other input in the batch |
| Pipeline.BatchResults | app_streamlit.py:293-350 | the results are the PDF successes followed by the item successes |
| Pipeline.TransportErrorExample | app_streamlit.py:349-350 | three items where the second raises give three entries; the second is `url_error` with the message, and the other two are as if processed alone |
| Pipeline.ProcessPdf | app_streamlit.py:294-316 | one PDF's try block computes its audit entry |
| Pipeline.ProcessItem | app_streamlit.py:319-350 | one item's try block computes its audit entry |
| Pipeline.Log | app_streamlit.py:310-314 | appends one entry, and adds its record to the results exactly when it succeeded |
| Pipeline.RunPdfLoop | app_streamlit.py:293-316 | the PDF loop appends every PDF's entry in order, and the results remain the successes of the audit |
| Pipeline.RunItemLoop | app_streamlit_fixed.py:206-225 | the item loop appends every item's entry in order, and the results remain the successes of the audit |
| Pipeline.ProcessBatch | app_streamlit.py:285-350 | the batch audit is the PDF entries followed by the item entries, and the results are exactly the successful entries' records |
| Pipeline.SingleEntry | app_streamlit.py:226-277 | a blank form logs nothing; otherwise one entry named `doi or url or pdf.name`, successful exactly when its route is non-empty, and never with an error route |
| Pipeline.SingleDoiPrecedence | app_streamlit.py:233-236 | a non-blank DOI field decides alone: URL and PDF are ignored, and success means route `doi` |
| Pipeline.SingleUrlIsPage | app_streamlit.py:237-253 | a URL field without a DOI resolves as a batch page would, when no call raises |
| Pipeline.SingleNamesRawDoiField | app_streamlit.py:273 | a DOI field of one space is not stripped in the audit name, yet the URL is resolved |

## Left out

- The Streamlit user interface: widgets, tabs, messages, the 2000-character preview and the download buttons. These are presentation.
- Session state: the `results` and `audit` lists are explicit accumulators, passed in and returned.
- Network calls (`requests.get`, URL quoting, headers, timeouts, `raise_for_status`, JSON decoding): folded into the `Services` oracles `fetchWork`, `queryTitle` and `fetchPage`. A title search whose first item is an empty JSON object is falsy in Python; the oracle returns None for it.
- PDF extraction: pdfminer, the PyPDF2 fallback with its 20-page cap, and the removal of the temporary file. These are foreign libraries and file I/O, folded into the oracle `pdfText`, which stands for each file's whole backend chain: in the second file a `Success` may come from PyPDF2 after pdfminer raised or returned nothing, and a `Failure` means every backend failed. The write of the temporary file is the oracle `writeTemp`, and its failure is modelled. The truncation to `max_chars` is modelled.
- The JSON Lines encoding of the audit log, which is library serialisation. Audit entries are a datatype.
- Unicode: whitespace, `lower()`, `\d` and `\s` are the ASCII classes only. Python's `isspace` and `splitlines` also accept further Unicode characters. Case-insensitive regex matching (`re.I`) is ASCII only too: Python's `re` also matches ı (U+0131), İ (U+0130), ſ (U+017F) and the Kelvin sign (U+212A) against the letters of the DOI pattern (app_streamlit.py:44), and ı and İ against the `i` of `<title` and `</title>` (app_streamlit.py:245). `IsDoiChar` and `HasAtCi` accept ASCII letters only, so the model misses such matches.
- `int()` on arbitrary JSON values in `crossref_first_year`: each date part is an optional integer.
- Exceptions raised by `crossref_to_meta` or the date lookup on ill-typed JSON, such as a null date field or a non-string title element. The raw record only holds the shapes the datatype can express.
- A non-zero number or `true` as the subject: the first file ignores it, and the second raises `TypeError` because it iterates the value (app_streamlit_fixed.py:81). `Subject` has no scalar case. An object subject is modelled by its keys.
- Normalizer.CrossrefToMeta: the function is a plain record construction. Its properties are stated in Normalizer.CrossrefToMetaNormalized and the lemmas beside it.
- Ris.RisEscape: its contract lives in Ris.RisEscapeSpec.
- Text.Words: its contract lives in Text.WordsAreWords and Text.SquashIsJoinedWords.
- Ris.NormalizedRoundTrip: names only the title and DOI fields. The general round trip is Ris.RisLinesRoundTrip together with Ris.EntriesInOrder, which recovers every field.
- Pipeline.SingleEntry: in single-input mode a raised exception is shown to the user and is not recorded in the audit entry. The model, like the source, logs route "" and no error message.
- The second file's `meta_to_ris` is a generator expression, not a loop. It is the function Ris.RisDocument. The method Ris.MetaToRis models the first file's loop.
- The second file's items list is a comprehension. It is the function Pipeline.ListItems. The method Pipeline.CollectItems models the first file's loop.

Some behaviours of the code are easy to miss. The model keeps each of them as written:

- A batch list item that holds a DOI anywhere is passed whole to the DOI lookup, not just the matched DOI (app_streamlit.py:322-323). A `https://doi.org/…` line is therefore looked up as that full text.
- Only an abstract starting with `<jats:` has its tags removed, not any abstract that starts with a tag (app_streamlit.py:139).
- A title-only record gives three lines: TY, TI and ER.
- The type, year, volume, issue, pages, DOI and URL are written without `ris_escape` (app_streamlit.py:72-89), and `clean` strips only the ends of a value. A line feed inside one of them therefore adds lines to the RIS output: a volume `"1\nER  - \n2"` puts one more `ER  - ` line in the document than there are records. Ris.RisDocumentSplit and Ris.RisDocumentRecords hold only when no record has such a line feed.
- Single-input mode does not record an error route or message when a call raises (app_streamlit.py:268-276).
- When the PDF backend raises, the first file reports `pdf_error` (app_streamlit.py:178, 315-316). The second file swallows pdfminer's exception and falls back to PyPDF2, and swallows PyPDF2's exception too; when both fail it goes on with empty text (app_streamlit_fixed.py:99-112). A failed write of the temporary file still raises in both files (app_streamlit.py:175-176, app_streamlit_fixed.py:95).
