# Marks analyzer, modelled in Dafny

This project models the analysis pipeline of the SLIIT marks analyzer. The
analyzer is a Streamlit page. It takes the text of an exported marks report and:

- reads the module code and name from the heading;
- extracts one record per table line: registration number, CA mark, grade and status;
- chooses the CA/final-exam weighting of the module;
- scales, sorts, ranks and classifies the students;
- answers a registration-number search with a per-student report (rank,
  percentile, class average, grade band and the final-exam marks that band
  calls for);
- counts the class by performance tier, grade and status.

Numbers are Dafny `real`s, so all arithmetic is exact. The two regular
expressions are modelled as hand-written matchers, each proved complete
against a declarative description of what the pattern matches.

Modules, in pipeline order:

| file | module | part of the page |
|---|---|---|
| chars.dfy | `Options`, `Chars` | character classes, `upper`, `strip`, whitespace removal, digit values |
| students.dfy | `Students` | the record of one student |
| module_header.dfy | `ModuleHeader` | module code and name (`re.search`) |
| record_scan.dfy | `RecordScan` | the record pattern and `re.findall` |
| extraction.dfy | `Extraction` | identifier normalisation, CA parsing, the extraction loop |
| weights.dfy | `WeightPolicy` | the 40/60 and 50/50 module sets and the user-chosen split |
| ranking.dfy | `Ranking` | scaled CA, in-place sort, ranks, performance tiers |
| summary.dfy | `ClassSummary` | class average and value counts |
| search.dfy | `StudentSearch` | prefix search, percentile, grade bands, exam marks |
| analyzer.dfy | `Analyzer` | the whole pipeline |

Notes on app.py's behaviour:

- The user's input is the final-exam percentage. It is an integer in [10, 90], and the CA weight is the rest (app.py:55-57).
- The upper exam mark is not clamped to 100. Both exam marks are reported as computed (app.py:99-100).
- There is only one record shape, the one with a CA column (app.py:33).
- The sort is pandas' default sort, which is not stable, so the order of ties is not fixed (app.py:62).
- The status figures are the value counts of the Status column, Pass, Fail and IC (app.py:132).
- The CA group `\d{1,3}(?:\.\d{1,2})?` admits marks up to 999.99. Nothing clamps them to 100 (app.py:33, 42).
- Worked example: grade A-, CA mark 78.5, 40/60 split.
  - The lower exam mark is (0.75 - 0.314) * 100 / 0.6 = 218/3 ≈ 72.67.
  - The upper exam mark is 238/3 ≈ 79.33 (`StudentSearch.ExamMarkExample`).

## Model

| member | source | states |
|---|---|---|
| Chars.Upper | app.py:41 | `str.upper()` on ASCII: same length, each lower-case letter becomes its capital, every other character unchanged |
| Chars.RemoveSpacesChars | app.py:41 | `re.sub(r"\s+", "", …)` keeps only characters of its input, and none of them is whitespace |
| Chars.RemoveSpacesKeeps | app.py:41 | a text without whitespace is left as it is |
| Chars.LStripSpec | app.py:27-28 | the leading part of `strip()`: the result is a suffix, everything dropped is whitespace, and it does not start with whitespace |
| Chars.RStripSpec | app.py:27-28 | the trailing part of `strip()`: the result is a prefix, everything dropped is whitespace, and it does not end with whitespace |
| ModuleHeader.LastNameStart | app.py:26 | `\s*` before the name gives back whitespace until `[^\n\-]` can match: the name starts at the last name character of the whitespace run or just after it |
| ModuleHeader.MatchModuleAt | app.py:26 | a successful attempt at `i` is a match of `(IT\d{4})\s*-\s*([^\n\-]+)` starting at `i`. The name group runs to a line break, a dash or the end. It starts at the last name character that can be reached from the dash over whitespace alone, which is where backtracking leaves `\s*` |
| ModuleHeader.MatchModuleAtComplete | app.py:26 | every way the pattern can match at a position is found by the attempt there |
| ModuleHeader.FindModule | app.py:26 | `re.search`: the match found is the attempt at its start, and no earlier position matches |
| ModuleHeader.StripModuleCode | app.py:27 | stripping a matched module code changes nothing |
| ModuleHeader.Identify | app.py:26-28 | the code is "Unknown" or `IT` + four digits, and an "Unknown" code comes with an "Unknown" name |
| ModuleHeader.IdentifyUnknownIff | app.py:26-28 | the code is "Unknown" exactly when the pattern matches nowhere in the text |
| ModuleHeader.FindModuleLeftmost | app.py:26 | whenever the pattern matches somewhere, a match is found, and it starts no later than any match |
| ModuleHeader.IdentifyFound | app.py:26-28 | with a match, the code is the matched code and the name is the stripped name group |
| RecordScan.DigitGroupsEndSound | app.py:33 | the end DigitGroupsEnd returns closes digit groups, each preceded by an optional whitespace |
| RecordScan.DigitGroupsEndComplete | app.py:33 | whenever non-empty digit groups fill a span, the function returns that span's end |
| RecordScan.IdEnd | app.py:33 | the end it returns closes a registration-number group `IT\s?\d{2}\s?\d{4}\s?\d{2}` |
| RecordScan.IdEndComplete | app.py:33 | wherever a registration-number group ends, IdEnd returns that end |
| RecordScan.MatchHead | app.py:33 | a result is the ordinal `\d+`, whitespace and a registration-number group |
| RecordScan.MatchHeadComplete | app.py:33 | the ordinal and identifier part can match in one way only, and the matcher finds it |
| RecordScan.CaEnd | app.py:33 | the end it returns closes a CA token `\d{1,3}(?:\.\d{1,2})?` |
| RecordScan.CaEndComplete | app.py:33 | a CA token followed by whitespace is the one CaEnd finds |
| RecordScan.MatchMark | app.py:33 | a result is whitespace and a CA token |
| RecordScan.MatchMarkComplete | app.py:33 | a CA token followed by whitespace is found by MatchMark |
| RecordScan.StatusAt | app.py:33 | a result is one of Pass, Fail, IC spelled out at that position |
| RecordScan.StatusAtComplete | app.py:33 | a status word spelled out at a position is the one StatusAt reads there |
| RecordScan.MatchTail | app.py:33 | a result is whitespace, a `[A-Z\+\-]+` grade, whitespace and a status |
| RecordScan.MatchTailComplete | app.py:33 | the grade and status part can match in one way only, and the matcher finds it |
| RecordScan.MatchRecordAt | app.py:33 | a successful attempt at `i` is a match of the whole record pattern starting at `i` |
| RecordScan.MatchRecordAtComplete | app.py:33 | every match of the pattern at a position is exactly the one the attempt finds |
| RecordScan.ScanSound | app.py:34 | every match `re.findall` reports is the attempt at its own start |
| RecordScan.ScanOrdered | app.py:34 | the matches come in text order and do not overlap |
| RecordScan.ScanMissesNone | app.py:34 | no position outside every reported match can start a match |
| RecordScan.Attempt | app.py:34 | each successful attempt is a non-empty match at its own position, so the scan advances |
| RecordScan.FindAllSpec | app.py:34 | `re.findall`: the matches are real matches, in order, non-overlapping, and nothing between them matches |
| RecordScan.Groups | app.py:34 | the group tuple of a match holds a registration-number token and a CA token |
| RecordScan.FindAllGroups | app.py:34 | one group tuple per match, each with the shapes of the pattern's groups |
| RecordScan.FindAllEmptyIff | app.py:34-35 | `re.findall` returns nothing exactly when the pattern matches nowhere |
| Extraction.NormalizeIdClean | app.py:41 | a normalised identifier has no whitespace and no lower-case letter |
| Extraction.NormalizeIdIdempotent | app.py:41 | normalising twice is the same as normalising once |
| Extraction.GroupsAtRemoveSpaces | app.py:41 | removing whitespace from digit groups leaves exactly their digits |
| Extraction.NormalizeRawId | app.py:33-41 | every matched registration number normalises to `IT` and exactly eight digits |
| Extraction.ParseCa | app.py:42 | `float(ca_percent)` of a CA token, read exactly, lies between 0 and 999.99 |
| Extraction.DigitsValueAppend | app.py:42 | the digits of `a + b` spell the number of `a` shifted past the digits of `b`, plus the number of `b` |
| Extraction.ParseCaWhole | app.py:42 | a CA token without a decimal point reads as the integer its digits spell |
| Extraction.ParseCaParts | app.py:42 | a CA token with a decimal point reads as its integer digits plus its fraction digits over ten to their count |
| Extraction.ParseCaFraction | app.py:42 | a CA token with a decimal point reads as the integer it spells without the point, over ten to the number of fraction digits |
| Extraction.ParseCaExample | app.py:42 | "78.5" reads as 78.5 |
| Extraction.ParseCaLeadingZero | app.py:42 | "07.05" reads as 7.05: a leading zero and a zero after the point are kept as `float` keeps them |
| Extraction.ToRecord | app.py:40-42 | a group tuple becomes a record with a well-formed registration number and a CA mark in range, and with the grade and status of the tuple |
| Extraction.BuildRecords | app.py:39-42 | the extraction loop appends one record per group tuple, in tuple order |
| Extraction.ExtractRecords | app.py:33-44 | no data exactly when the pattern matches nowhere. Otherwise one record per match, in match order, each with a well-formed registration number |
| WeightPolicy.Resolve | app.py:47-57 | the weights always add up to 1, each between 0.1 and 0.9. The 40/60 set gives (0.4, 0.6), the 50/50 set gives (0.5, 0.5), and any other code gives a final weight of the input percentage over 100 |
| WeightPolicy.FixedSetsDisjoint | app.py:47-53 | no code is in both fixed sets, so the order of the tests does not matter |
| WeightPolicy.FixedSetsAreModuleCodes | app.py:47-48 | every code of the fixed sets has the `IT` + four digits shape |
| WeightPolicy.UnknownTakesInput | app.py:50-57 | the "Unknown" code always takes the user-input branch |
| Ranking.PerformanceCategory | app.py:65-69 | the tier goes one step up for every threshold among 50, 70 and 85 that the mark reaches |
| Ranking.PerformanceMonotone | app.py:65-69 | a higher mark never gets a lower tier |
| Ranking.PerformanceBands | app.py:65-69 | each tier covers exactly its band, with the lower bound inclusive |
| Ranking.RecordsOfPermutation | app.py:62 | reordering the entries reorders their records the same way |
| Ranking.MaxIndex | app.py:62 | the position it returns holds a largest scaled mark of the rest of the array |
| Ranking.SelectStep | app.py:62 | swapping a largest remaining entry to the front of the rest extends the sorted, partitioned prefix by one |
| Ranking.SelectNext | app.py:62 | one selection step extends the sorted, partitioned prefix by one and keeps the contents |
| Ranking.SortByScaledDesc | app.py:62 | the array ends up sorted on the scaled mark, largest first, and is a permutation of what it held |
| Ranking.ScaleColumn | app.py:60-61 | each entry gets its CA mark times the CA weight as its scaled mark and its grade so far |
| Ranking.NumberRows | app.py:63-71 | the rows are numbered 1, 2, … in table order, and each gets the tier of its raw CA mark |
| Ranking.ScaledPermutation | app.py:60-62 | sorting keeps every entry's scaled mark equal to its CA mark times the weight |
| Ranking.RankTable | app.py:60-71 | the table is a permutation of the records. Each row's scaled mark is its CA mark times the CA weight, and its grade so far equals it. The rows are sorted largest first, ranked 1..N in order, and each row's tier is that of its raw CA mark |
| ClassSummary.SumScale | app.py:90 | scaling every value of a column scales its sum |
| ClassSummary.MeanBounds | app.py:90 | the mean of a column lies within any bounds on its values |
| ClassSummary.MeanScaled | app.py:113 | the class average of the scaled marks is the CA weight times the average raw CA mark |
| ClassSummary.MeanBetweenEnds | app.py:90 | the class average lies between the lowest and the highest scaled mark |
| ClassSummary.CountKeys | app.py:123 | counting one more occurrence keeps the set of values, or adds the new value at the end, and adds one to the total |
| ClassSummary.CountAsMap | app.py:123 | counting one more occurrence raises that value's count by one |
| ClassSummary.TallySpec | app.py:123-132 | `value_counts`: the tally of a column is its value counts (`ValueCounts`): distinct values, exactly the values of the column, each count the number of occurrences, counts adding up to the column's length |
| ClassSummary.Summarize | app.py:90-132 | the class average is the mean of the scaled CA column. The performance, grade and status counts are the value counts of their columns: each value once, exactly the values present, each with its number of occurrences, adding up to the class size |
| StudentSearch.CleanQuery | app.py:75-77 | the clean query has only capital letters and digits and is no longer than the input |
| StudentSearch.CleanQueryAppend | app.py:77 | cleaning works character by character: the clean query of `a + b` is that of `a` followed by that of `b` |
| StudentSearch.CleanQueryChar | app.py:77 | one character is kept, in capitals, exactly when its capital is a capital letter or a digit |
| StudentSearch.CleanQueryUpper | app.py:77 | typing in capitals makes no difference |
| StudentSearch.CleanQuerySkips | app.py:77 | a character whose capital is not a capital letter or a digit is dropped wherever it stands |
| StudentSearch.CleanQueryKeeps | app.py:77 | a text of capital letters and digits is its own clean query |
| StudentSearch.CleanQueryIdempotent | app.py:77 | cleaning twice is the same as cleaning once |
| StudentSearch.CleanQueryRegNo | app.py:77 | a normalised registration number typed in full is its own clean query |
| StudentSearch.PrefixMatches | app.py:78 | the filtered rows all come from the table and start with the query |
| StudentSearch.PrefixMatchesComplete | app.py:78 | every row that starts with the query is in the filter |
| StudentSearch.PrefixMatchesNone | app.py:78-81 | with no matching row the filter is empty |
| StudentSearch.PrefixMatchesSingle | app.py:78-86 | with exactly one matching position the filter is that one row |
| StudentSearch.PrefixMatchesEmpty | app.py:77-78 | the empty prefix matches every row |
| StudentSearch.GradeRange | app.py:91-98 | every band is within 0..100 with its minimum at most its maximum, and a grade not in the table, such as F, gives (0, 0) |
| StudentSearch.GradeBandsCover | app.py:91-96 | every total from 0 to 100 is in some grade's band |
| StudentSearch.GradeBandsDisjoint | app.py:91-96 | no total is in the bands of two different grades |
| StudentSearch.ExamMark | app.py:99-100 | the exam mark is exactly the one for which CA weight × CA mark + final weight × exam mark equals the bound |
| StudentSearch.ExamMarkMonotone | app.py:99-100 | a higher total needs a higher exam mark, so the lower exam mark never exceeds the upper one |
| StudentSearch.ExamMarkExample | app.py:99-100 | grade A-, CA 78.5, 40/60: exam marks 218/3 and 238/3 |
| StudentSearch.ExamMarkUnclamped | app.py:99-100 | exam marks are not clamped: 500/3 for an A+ from a CA of 0, and -100 for an E band floor from a CA of 100 |
| StudentSearch.Percentile | app.py:89 | the percentile lies in [0, 100) and is 100 times the share of the class ranked below the student |
| StudentSearch.PercentileMonotone | app.py:89 | a worse rank never has a higher percentile |
| StudentSearch.MakeReport | app.py:86-113 | the report's total, percentile (in [0, 100) and 100 times the share ranked below), class average, raw average (class average over CA weight) and grade band each satisfy their defining relation. The exam marks are ExamMark of the band ends, the lower at most the upper |
| StudentSearch.Search | app.py:75-100 | an empty input asks nothing. Not found exactly when no row starts with the clean query. Ambiguous lists exactly the rows that start with the clean query, in table order, at least two of them. Found gives the one row that matches and its report |
| StudentSearch.SearchSingle | app.py:78-86 | when exactly one row starts with the clean query, the search finds that row and reports on it |
| StudentSearch.PrefixMatchesRanksIncrease | app.py:78 | the filter keeps table order: in a table whose ranks increase, the ranks of the matches increase |
| StudentSearch.SearchAmbiguousDistinct | app.py:78-84 | an ambiguous search lists each row once: the ranks of the listed rows strictly increase |
| StudentSearch.SearchFullId | app.py:77-86 | a full registration number held by a single row, typed in any case or spacing, finds that row and gives its report |
| StudentSearch.SearchTwoMatches | app.py:78-84 | two matching rows make the search ambiguous |
| StudentSearch.SearchBlankQuery | app.py:75-83 | a non-empty input without any letter or digit matches every row |
| StudentSearch.SearchRawAverage | app.py:113 | the raw average in the report is the mean of the raw CA marks |
| Analyzer.RegNosKept | app.py:62 | ranking keeps every registration number well formed |
| Analyzer.Analyze | app.py:26-132 | the whole page: module heading, stop on no data, then weights, ranked table, search outcome and class summary, each as specified above |

## Left out

- The Streamlit page itself is not modelled: titles, warnings, tables, the report markdown and `st.stop` (app.py:8-15, 30, 74, 102-114, 117-122). The search input and the final-exam field become parameters of `Analyzer.Analyze`.
- PDF text extraction (app.py:17-23) is a foreign library doing I/O. The concatenated page text is the input.
- Charts (app.py:124, 129, 133-136) are drawing only. The counts behind them are modelled.
- Float formatting in the report (app.py:108-113) and IEEE rounding are not modelled. Numbers are exact reals.
- `\d` and `str.upper()` are modelled on ASCII only. Python also accepts other Unicode decimal digits and upper-cases non-ASCII letters. `\s` is modelled as the full set of characters for which `str.isspace()` holds.
- Ranking.SortByScaledDesc: a selection sort stands in for pandas' sort. Both sort largest first and give a permutation, but the order of equal scaled marks is not fixed in either, so no tie order is promised.
- ClassSummary.Summarize: the counts are kept in order of first occurrence. pandas orders value counts by count, and the grade counts by grade (`sort_index`); only the counts themselves are modelled, not that display order.
- Extraction.ParseCa: `float` of a CA token is read exactly as a decimal. Binary floating point is not modelled.
