# pdftoexcel: the OCR-text-to-record parser, modelled in Dafny

`app.py` is a Streamlit page. It turns an uploaded PDF of candidate listings
into a spreadsheet. Each page is rasterised and run through OCR. The page
texts are joined, and the label "Mostra tutto" is removed. One regular
expression then cuts the text into candidate records with a `name`, `title`,
`company`, `location` and optional `industry`. The records become a pandas
table, and the five required columns are made sure to exist before the table
is shown and exported.

This project models the logic in that pipeline:

- `char_classes.dfy` (`CharClasses`): the character classes of the pattern, read as
  Python's `re` reads them for a `str` pattern without flags. It also holds the
  maximal run of a class (`RunEnd`), which is what each greedy quantifier of this
  pattern settles on.
- `candidate_pattern.dfy` (`CandidatePattern`): the pattern of `parse_candidates` at
  one start offset.
  - `Accepts` is the pattern's language: every cut of the text into the five groups
    that the pattern admits.
  - `MatchAt` is the one cut Python's backtracking matcher reports.
  - The lemmas prove three things: `MatchAt` is accepted; it exists whenever any cut
    exists; and it is the cut the greedy and lazy quantifiers prefer.
- `candidate_parser.dfy` (`CandidateParser`): `finditer`, `groupdict()` and the
  append loop of `parse_candidates`.
  - `Scan` is the `finditer` search over any anchored matcher.
  - `LeftmostScan` describes a leftmost, non-overlapping search declaratively.
  - The lemmas prove that `Scan` satisfies `LeftmostScan` and that nothing else
    does. They also prove that matches are ordered and do not overlap, and that
    the result is empty exactly when no offset matches.
- `text_assembly.dfy` (`TextAssembly`): the page loop and `str.replace` of
  `extract_text_from_pdf`.
- `columns.dfy` (`Columns`): the table built from the records, and the fill loop
  for the required columns.
- `pipeline.dfy` (`Pipeline`): one upload, from page texts to the table or to
  "no candidates found".

## How the pattern is matched

How Python's backtracking resolves this pattern at a start offset:

- **Name.** Every letter or whitespace run inside the name is maximal, because
  the item that follows cannot start with a character of that run's class. The
  name must be followed by a line feed. The `\s+` between the two words may
  contain line feeds, and a match may start in the middle of a word.
- **Title and company.** Each runs to the next line feed and must not be empty.
  `.` never crosses a line feed, so lazy and greedy give the same result.
- **Location.** The location is the maximal run of `[A-Za-zÀ-ÖØ-öø-ÿ\s]`. It
  never gives anything back, because the optional industry group is tried (and
  skipped if it fails) first. Whitespace is in the class, so the run crosses
  line feeds and keeps trailing spaces: in "Milano - Staffing" the location is
  "Milano ".
- **Industry.** An industry exists only if the character right after the
  location is `-`. Greedy `\s*` then takes all the whitespace after the hyphen.
  - If a class character follows that whitespace, the industry is the maximal
    class run from there.
  - Otherwise `\s*` gives back one whitespace character, and that character is
    the whole industry.
  - If there is no whitespace to give back, the group does not take part and
    `groupdict()` reports `None`.

Two consequences for the records and the table:

- `groupdict()` always has all five keys, so the fill loop (app.py:78-81) never
  adds a column and never writes "Not Available". An absent industry stays
  `None` (`Pipeline.Convert`, `Pipeline.BuildTable`).
- The name must be followed directly by a line feed (app.py:54), so a name line
  with trailing text, such as " - 1°", gives no match at the start of that line. The location
  comes after a title line and a company line.

## Model

| member | source | states |
|---|---|---|
| CharClasses.RunEnd | app.py:54-58 | the greedy run of a class from `i` ends inside the text, at the first position that holds no class character |
| CharClasses.RunEndAll | app.py:54-58 | every character of that run belongs to the class |
| CharClasses.RunEndSlice | app.py:54-58 | the run, read as a string, is made only of class characters |
| CharClasses.RunEndIs | app.py:54-58 | a class run that cannot be extended is the greedy run, so the greedy run is the only maximal one |
| CharClasses.RunEndCovers | app.py:54-58 | every class run from `i` lies inside the greedy run, so no class run is longer |
| CandidatePattern.NameEnd | app.py:54 | a name found at `p` is followed by a line feed, which lies inside the text |
| CandidatePattern.NameEndSound | app.py:54 | the name found is an uppercase letter and at least one ASCII letter, then whitespace, then an uppercase letter and at least one letter |
| CandidatePattern.NameEndComplete | app.py:54 | any name the pattern admits at `p` is exactly the one found, so the name group has only one possible cut |
| CandidatePattern.LineEnd | app.py:55-56 | a title or company found runs to a line feed inside the text and is not empty |
| CandidatePattern.LineEndSound | app.py:55-56 | the title or company found is non-empty and holds no line feed |
| CandidatePattern.LineEndComplete | app.py:55-56 | any non-empty single-line group followed by a line feed is exactly the one found |
| CandidatePattern.PlaceRunSound | app.py:57 | a non-empty maximal run of the location class has the shape of the location group |
| CandidatePattern.IndustryAfter | app.py:58 | an industry is reported only after a hyphen right at the end of the location, and it lies after that hyphen and inside the text |
| CandidatePattern.IndustryAfterSound | app.py:58 | what lies between the location and a reported industry is `\s*-\s*`, and the industry is a non-empty run of the location class |
| CandidatePattern.IndustryAfterComplete | app.py:58 | after a location that cannot be extended, if any industry is admitted then one is reported, starting and ending no earlier (greedy `\s*` and `+`) |
| CandidatePattern.MatchAt | app.py:53-59 | a reported match starts at `p`, and its groups lie in pattern order inside the text |
| CandidatePattern.MatchAtSound | app.py:53-59 | the reported match is admitted by the pattern; its location is maximal; an industry implies a hyphen right after the location |
| CandidatePattern.StagesAccepted | app.py:53-59 | the match put together from the name, title and company ends, the maximal location and the industry found after it is admitted by the pattern |
| CandidatePattern.MatchAtComplete | app.py:53-59 | whenever the pattern admits any match at `p`, one is reported, with the same name, title and company and a location at least as long |
| CandidatePattern.MatchAtIndustryPreferred | app.py:58 | among admitted matches with the reported location, if any has an industry then the reported one does, and it starts and ends no earlier |
| CandidateParser.GroupDict | app.py:61 | the record has exactly the five keys; every field except industry has a value; industry is `None` exactly when its group did not take part |
| CandidateParser.MatcherAnchored | app.py:53-59 | every match the pattern reports starts at its offset and is non-empty, so `finditer` always moves forward |
| CandidateParser.Scan | app.py:60 | every match found starts at or after the search position and inside the text, and is the match reported at its start |
| CandidateParser.FindIter | app.py:60 | every match `finditer` yields lies inside the text, with its groups in pattern order |
| CandidateParser.FindIterMatches | app.py:60 | every match `finditer` yields is the match the pattern reports at its start |
| CandidateParser.ScanIsLeftmost | app.py:60 | the search yields a leftmost non-overlapping sequence: no match starts in any gap it skips, or after the last match |
| CandidateParser.LeftmostIsScan | app.py:60 | any leftmost non-overlapping sequence is the one the search yields |
| CandidateParser.ScanOrdered | app.py:60 | each match found is non-empty and ends no later than any later match starts |
| CandidateParser.FindIterLeftmost | app.py:60 | `finditer` yields the leftmost non-overlapping matches of the text, and only that sequence qualifies |
| CandidateParser.FindIterOrdered | app.py:60-61 | matches do not overlap and their start offsets strictly increase |
| CandidateParser.FindIterEmpty | app.py:60-62 | the parser never fails, and it yields no match exactly when no offset of the text starts one |
| CandidateParser.RowFields | app.py:53-61 | each field is the text at its group's position. Name, title and company have their group's shape and are each followed by a line feed. The location is a maximal non-empty class run. An industry, when present, comes after a hyphen right after the location and is a non-empty class run |
| CandidateParser.ParsedRecordFields | app.py:53-62 | every record parsed from a text has a two-word name, a non-empty title and a non-empty company, each followed by a line feed. The location is a maximal non-empty class run. An industry, when present, follows a hyphen right after the location and is a non-empty class run |
| CandidateParser.ParseCandidates | app.py:51-62 | one record per match, in match order, each the match's `groupdict()` |
| CandidateParser.AppendRecords | app.py:60-62 | the append loop yields one record per match, in the same order, each that match's `groupdict()` |
| TextAssembly.JoinPages | app.py:45-47 | the joined text is empty only when there are no pages, and otherwise ends with a line feed |
| TextAssembly.RemoveAll | app.py:48 | `str.replace` with an empty replacement never lengthens the text |
| TextAssembly.StripMarker | app.py:48 | removing "Mostra tutto" never lengthens the text |
| TextAssembly.MarkerOnOneLine | app.py:48 | the removed label is non-empty and holds no line feed |
| TextAssembly.ContainsTail | app.py:48 | when the first character starts no occurrence, the needle occurs in the text exactly when it occurs after that character |
| TextAssembly.RemoveAllChanges | app.py:48 | the text is unchanged exactly when it does not contain the needle, and otherwise becomes strictly shorter |
| TextAssembly.RemoveAllNewlines | app.py:48 | removing a needle without line feeds keeps every line feed |
| TextAssembly.NeedleBeforeNewline | app.py:48 | an occurrence of a needle without line feeds cannot cross a line feed |
| TextAssembly.RemoveAllSplitBefore | app.py:45-48 | the replacement works independently on the text before a line feed and on the text from it on |
| TextAssembly.RemoveAllAfterNewline | app.py:45-48 | a line feed at the front of the text is kept, and the rest is processed on its own |
| TextAssembly.RemoveAllSplitAfter | app.py:45-48 | the replacement works independently on a text that ends with a line feed and on the text after it |
| TextAssembly.JoinNewlines | app.py:45-47 | the joined text has the pages' line feeds plus one per page |
| TextAssembly.AssembledPerPage | app.py:45-48 | the assembled text is each page with the marker removed, followed by a line feed, in page order |
| TextAssembly.AssembledNewlines | app.py:45-48 | the assembled text has the pages' line feeds plus one per page |
| TextAssembly.AssembleText | app.py:43-48 | the page loop followed by the replacement yields the joined pages with the marker removed |
| Columns.Placeholder | app.py:81 | the added column holds "Not Available" in every row |
| Columns.TableOf | app.py:75 | the table has one column per key found in any record, with one cell per record; each cell is the record's value, or `None` where the record lacks the key |
| Columns.FillMissing | app.py:78-81 | afterwards every required column exists; existing columns keep their cells; each added column is all "Not Available", with one cell per row of the table; no other column appears |
| Columns.TableOfUniformRows | app.py:75-81 | a non-empty list of records that all have exactly the required keys gives a table with exactly those columns |
| Pipeline.FieldsAreRequiredColumns | app.py:78 | the pattern's group names are exactly the required columns |
| Pipeline.TableOfParsed | app.py:75 | a table built from non-empty `groupdict()` records has the five columns, and each cell is the record's value |
| Pipeline.FilledKeys | app.py:75-81 | after the fill loop the table built from parsed records has exactly the five columns |
| Pipeline.FilledCells | app.py:75-81 | after the fill loop every cell of the five columns is the value of its record, one cell per record |
| Pipeline.BuildTable | app.py:75-81 | for parsed records the fill loop adds nothing: five columns, each cell the record's value, never the placeholder |
| Pipeline.Convert | app.py:69-81 | no table ("no candidates found") exactly when no offset of the assembled text starts a match; otherwise five columns, one row per match, each cell that match's `groupdict()` value |

## Left out

- Streamlit UI: page config, sidebar, uploader, spinner, messages, preview and download button (app.py:13, 32-40, 64-100). These are presentation only. The "no candidates" branch is modelled as `None`.
- Toolchain setup: OS detection, PATH changes, the tesseract path and the `subprocess` version checks (app.py:15-40). These are environment configuration. As written, line 21 is mis-indented and `pytesseract` is never imported, so the script would not start. The model treats `parse_candidates` and the text assembly as standalone functions.
- `convert_from_bytes` and `image_to_string` (app.py:44, 47) call poppler and tesseract. The model takes the OCR text of each page as its input (`pages: seq<string>`).
- pandas `DataFrame` internals, `ExcelWriter`/xlsxwriter and `BytesIO` (app.py:75, 88-91) are library serialisation. A table is modelled as a map from column name to cells.
- Table column order is not modelled, because a map has no order. `None` stands both for Python's `None` and for pandas' missing value.
- The model does not include a general regular-expression engine, only this pattern. `\s` is Python's `str.isspace` set, written out in `CharClasses.IsSpace`, and the name, location and industry classes all use it.
- `str.replace` with an empty replacement is modelled for any non-empty needle (`TextAssembly.RemoveAll`). The source's needle is non-empty, so the empty-needle case of `replace`, which inserts at every position, is not modelled.
- Removal of the marker is one left-to-right pass, as in Python. A marker formed by joining the text around a removed one stays in the output. The model keeps this behaviour, but no lemma exhibits it.
