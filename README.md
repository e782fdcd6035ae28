# Luchia video downloader, modelled in Dafny

`download_Luchia.py` is an interactive script. It:

- finds the `.xlsx` spreadsheet in the working directory, letting the operator choose one when there are several;
- asks for an `OK` confirmation and for an output folder, which defaults to `videos`;
- asks for three column letters: title, extra information and hyperlink;
- turns every data row that has a title and a hyperlink target into an entry `"<title> (<extra>)"`, sanitised by `clean_filename`;
- downloads each entry's link to `<folder>/<name>.mp4`, skipping entries whose file already exists and carrying on past failed downloads.

This project models the decision logic of that script:

- `Text`: the parts of Python's string behaviour the script relies on.
  - The whitespace class shared by `str.strip` and the regular expression `\s`. This is the `Py_UNICODE_ISSPACE` table.
  - `strip`.
  - ASCII `upper`.
- `Sanitizer`: `clean_filename`, built from the same four stages as the script.
- `Columns`: acceptance of a column letter and its zero-based index.
- `Selection`: the `.xlsx` filter, the 0/1/many outcome, the 1-based choice and the `OK` confirmation.
- `Extraction`: the row loop that builds the parallel name and link lists.
- `Driver`: the output folder default, POSIX `os.path.join` and the download loop.
  - The filesystem is the set of paths that exist.
  - The downloader is a function parameter. It reports an error or success, and the paths that exist after the call.
- `Batch`: everything after the prompts, chained together.

The character class `[\/:*?<>|]` of `clean_filename` holds an escaped slash and no backslash, so a backslash is kept; `Sanitizer.CleanFilenameKeepsOtherChars` states that a backslash survives sanitising.

## Model

| member | source | states |
|---|---|---|
| Text.IsSpace | download_Luchia.py:83-84 | the whitespace set of `strip()` and `\s`; what stripping and collapsing do with it is stated by `Text.StripSpec`, `Sanitizer.CollapseFromSpec` and `Sanitizer.CollapseSpaceRun` |
| Text.Upper | download_Luchia.py:48-63 | ASCII `.upper()`; its effect on the answers is stated by `Selection.ConfirmedIff` and `Columns.AcceptLetterIndexIff` |
| Text.Strip | download_Luchia.py:83 | `str.strip()`: the left and right strips; what it computes is stated by `Text.StripSpec`, `Text.StripLeftSpec`, `Text.StripRightSpec` and `Text.StripTrimmed` |
| Text.StripSpec | download_Luchia.py:83 | `strip` leaves a string that is empty or starts and ends with non-whitespace. It is empty exactly when the input is all whitespace. Every non-whitespace character is kept in order. |
| Text.StripLeftSpec | download_Luchia.py:83 | leading strip removes exactly a whitespace prefix and stops at the first non-whitespace character |
| Text.StripRightSpec | download_Luchia.py:83 | trailing strip removes exactly a whitespace suffix and stops at the last non-whitespace character |
| Text.StripTrimmed | download_Luchia.py:83 | `strip` does not change a string that already starts and ends with non-whitespace |
| Text.NonSpaceMember | download_Luchia.py:84 | the non-whitespace projection holds exactly the non-whitespace characters of the string |
| Text.NonSpaceCount | download_Luchia.py:84 | the projection keeps every non-whitespace character as many times as it occurs |
| Sanitizer.ReplaceAll | download_Luchia.py:81-83 | replacing every character of a class by one character; stated by `Sanitizer.ReplaceAllSpec` and `Sanitizer.ReplaceAllCount` |
| Sanitizer.ReplaceAllSpec | download_Luchia.py:81 | `re.sub(r'[\/:*?<>\|]', '_', s)` keeps the length and replaces exactly the characters of the class, position by position |
| Sanitizer.ReplaceAllCount | download_Luchia.py:81 | characters outside the class, other than the substitute, keep their number of occurrences |
| Sanitizer.DeleteAll | download_Luchia.py:82 | `str.replace(c, '')`; stated by `Sanitizer.DeleteAllSpec`, `Sanitizer.DeleteAllAppend` and `Sanitizer.DeleteAllCount` |
| Sanitizer.DeleteAllSpec | download_Luchia.py:82 | `replace('"', '')` leaves no quote, adds no character, and changes nothing in a string without quotes |
| Sanitizer.DeleteAllCount | download_Luchia.py:82 | every other character keeps its number of occurrences |
| Sanitizer.DeleteAllAppend | download_Luchia.py:82 | deletion distributes over concatenation, so the remaining characters keep their order, and a single character is dropped exactly when it is the deleted one |
| Sanitizer.CollapseFrom | download_Luchia.py:84 | `re.sub(r'\s+', ' ', s)` as a left-to-right scan; stated by `Sanitizer.CollapseFromSpec`, `Sanitizer.CollapseSpaceRun`, `Sanitizer.CollapseRunThen`, `Sanitizer.CollapseAppend`, `Sanitizer.CollapseKeepsNonSpace` and `Sanitizer.CollapseFixes` |
| Sanitizer.Collapse | download_Luchia.py:84 | the scan from the start of the string, outside any run |
| Sanitizer.CollapseFromSpec | download_Luchia.py:84 | `re.sub(r'\s+', ' ', s)` leaves only plain spaces as whitespace, never two in a row, and keeps the first and last characters when they are not whitespace |
| Sanitizer.CollapseKeepsNonSpace | download_Luchia.py:84 | collapsing runs of whitespace keeps every non-whitespace character in order |
| Sanitizer.CollapseFixes | download_Luchia.py:84 | collapsing does not change a string whose only whitespace is single plain spaces |
| Sanitizer.CollapseSpaceRun | download_Luchia.py:84 | a non-empty whitespace run on its own becomes exactly one space |
| Sanitizer.CollapseRunThen | download_Luchia.py:84 | a whitespace run followed by non-whitespace becomes one space in front of what follows |
| Sanitizer.CollapseAppend | download_Luchia.py:84 | after a non-whitespace character collapsing starts afresh, so the text before and after it is collapsed separately |
| Sanitizer.Unforbidden | download_Luchia.py:81-82 | the substitution of line 81 followed by the quote deletion of line 82; stated by `Sanitizer.UnforbiddenSafe` |
| Sanitizer.SpacedNewlines | download_Luchia.py:83 | `replace('\n', ' ')`; stated by `Sanitizer.ReplaceAllSpec` and `Sanitizer.NewlinesKeepNonSpace` |
| Sanitizer.UnforbiddenSafe | download_Luchia.py:81-82 | after the first two stages no forbidden character and no quote remains |
| Sanitizer.SafeIsUnforbidden | download_Luchia.py:81-82 | the first two rewrites leave text without forbidden characters and quotes unchanged |
| Sanitizer.SpacedNewlinesAppend | download_Luchia.py:83 | replacing newlines distributes over concatenation |
| Sanitizer.CleanFilename | download_Luchia.py:79-85 | the four rewrites in the script's order; its properties are the `Sanitizer.CleanFilename…` lemmas below |
| Sanitizer.CleanFilenameIsClean | download_Luchia.py:79-85 | every result of `clean_filename` is clean. It contains none of `/ : * ? < > \|`, no quote and no newline. It is empty or starts and ends with non-whitespace. Its only whitespace is single plain spaces. |
| Sanitizer.CleanFormPreserved | download_Luchia.py:83-84 | strip then collapse turns any text free of forbidden characters and quotes into a clean name |
| Sanitizer.CleanFilenameOfPlain | download_Luchia.py:79-85 | text with no forbidden character, quote or newline is only stripped and collapsed |
| Sanitizer.CleanFilenameFixesCleanName | download_Luchia.py:79-85 | `clean_filename` returns a clean name unchanged |
| Sanitizer.CleanFilenameIdempotent | download_Luchia.py:79-85 | `clean_filename(clean_filename(s)) == clean_filename(s)` |
| Sanitizer.CleanFilenameJoinsWords | download_Luchia.py:83-84 | any run of whitespace, newlines included, between two clean words becomes exactly one space: `clean_filename(x + w + y) == x + " " + y` |
| Sanitizer.StripCollapseJoinsWords | download_Luchia.py:83-84 | strip then collapse turn a whitespace run between two clean words into one space |
| Sanitizer.NewlinesKeepNonSpace | download_Luchia.py:83 | replacing newlines by spaces keeps every non-whitespace character in order |
| Sanitizer.CleanFilenameKeepsText | download_Luchia.py:79-85 | sanitising keeps, in order, exactly the non-whitespace characters left after substituting and deleting |
| Sanitizer.CleanFilenameKeepsOtherChars | download_Luchia.py:79-85 | every non-whitespace character other than the forbidden ones, the quote and `_`, the backslash included, occurs as often in the result as in the input |
| Columns.AcceptLetter | download_Luchia.py:63-65 | an answer is accepted exactly when its stripped form is one ASCII letter, and the letter returned is upper case |
| Columns.LetterIndex | download_Luchia.py:74-76 | `ord(letter) - ord('A')`; for accepted letters stated by `Columns.AcceptedIndexInRange` and `Columns.AcceptLetterIndexIff` |
| Columns.AcceptedIndexInRange | download_Luchia.py:63-76 | an accepted letter maps to a column index in 0..25, and that index names the letter back |
| Columns.AcceptLetterIndexIff | download_Luchia.py:63-76 | column `i` is chosen exactly by its letter in upper or lower case, with any whitespace around it |
| Selection.EndsWith | download_Luchia.py:16 | `file.endswith('.xlsx')`; the names it keeps are stated by `Selection.XlsxFiles` |
| Selection.XlsxFiles | download_Luchia.py:16 | the filter keeps only names ending in `.xlsx`, each as many times as it is listed |
| Selection.Locate | download_Luchia.py:19-25 | the 0/1/many decision on the filtered listing; stated by `Selection.LocateOutcomes` |
| Selection.LocateOutcomes | download_Luchia.py:19-25 | no spreadsheet exactly when no listed name ends in `.xlsx`. A file is selected without a question exactly when there is one `.xlsx` name, and it is that name. The operator is asked exactly when there are two or more, and chooses among the filtered listing. |
| Selection.Choose | download_Luchia.py:35-37 | a number is accepted exactly when it is in 1..n and selects candidate `choice - 1` |
| Selection.ChooseReachesEach | download_Luchia.py:28-37 | when the listed names are distinct, each candidate is selected by its displayed number and by no other answer |
| Selection.Confirmed | download_Luchia.py:46-48 | `confirmation.upper() == 'OK'` on the stripped answer; stated by `Selection.ConfirmedIff` |
| Selection.ConfirmedIff | download_Luchia.py:46-48 | the run continues exactly when the stripped answer is `OK`, `Ok`, `oK` or `ok` |
| Extraction.Max3 | download_Luchia.py:92 | `max` of the three column indices: at least each of them and equal to one of them |
| Extraction.Truthy | download_Luchia.py:97 | Python truthiness of a cell value or link: present and non-empty; the row test it decides is stated by `Extraction.SourceRowsExact` |
| Extraction.LinkOf | download_Luchia.py:95 | the hyperlink target of a cell, absent when the cell has no hyperlink; used by `Extraction.Qualifies` |
| Extraction.Str | download_Luchia.py:98 | the f-string form of an optional cell value; stated by `Extraction.MissingInfoName` and `Extraction.TitleWithInfoName` |
| Extraction.DisplayName | download_Luchia.py:98 | `clean_filename(f"{title} ({extra_info})")`; stated by `Extraction.EntryNamesClean`, `Extraction.TitleWithInfoName`, `Extraction.MissingInfoName` and `Extraction.TrailingSpaceTitleName` |
| Extraction.Qualifies | download_Luchia.py:92-97 | the row guard: enough columns, a truthy title and a truthy hyperlink target; stated by `Extraction.SourceRowsExact` |
| Extraction.EntryOf | download_Luchia.py:93-99 | the name and link a qualifying row contributes; stated by `Extraction.EntryNamesClean` |
| Extraction.SourceRows | download_Luchia.py:91-97 | every row taken is a data row (index 1 or more) that has enough columns, a title and a hyperlink target |
| Extraction.SourceRowsExact | download_Luchia.py:91-97 | the rows taken are in increasing order, and a row is taken exactly when it is a data row with enough columns, a truthy title and a truthy hyperlink target |
| Extraction.SheetEntries | download_Luchia.py:88-99 | the entries of the qualifying rows in row order, the reference definition `Extraction.ExtractVideos` is proved equal to |
| Extraction.EntryNamesClean | download_Luchia.py:97-99 | every entry's name is a clean name and every link is non-empty |
| Extraction.ExtractVideos | download_Luchia.py:88-99 | the loop produces parallel lists, equal to the names and links of the entries of the qualifying rows in row order |
| Extraction.UntitledRowDropped | download_Luchia.py:91-99 | a header, a titled linked row and an untitled linked row give the single entry `Title1 (info)`, whose link is the first row's hyperlink target rather than the cell's displayed text |
| Extraction.UnlinkedRowsDropped | download_Luchia.py:95-97 | a row whose link cell shows a URL without a hyperlink, and a row whose hyperlink has no target, give no entry |
| Extraction.TitleWithInfoName | download_Luchia.py:98 | title `Title1` with extra `info` is named `Title1 (info)` |
| Extraction.MissingInfoName | download_Luchia.py:94-98 | an empty extra-information cell is formatted as `None`, giving `Song (None)` |
| Extraction.TrailingSpaceTitleName | download_Luchia.py:98 | a title ending in a space gives `Foo (x)`: the two spaces before the bracket become one |
| Extraction.NewlineTitleName | download_Luchia.py:83-98 | a title with a line break, `Foo\nBar` with extra `x`, gives `Foo Bar (x)` |
| Driver.OutputFolder | download_Luchia.py:53 | the folder is never empty and does not start or end with whitespace. An all-whitespace answer gives `videos`. Otherwise the folder is the stripped answer, inner whitespace included. |
| Driver.Join | download_Luchia.py:115 | POSIX `os.path.join` of two components; stated through `Driver.MediaPathShape` |
| Driver.MediaPath | download_Luchia.py:115 | `os.path.join(output_folder, f"{video_name}.mp4")`; stated by `Driver.MediaPathShape` |
| Driver.MediaPathShape | download_Luchia.py:115 | for slash-free names the path is the folder, a separator unless the folder already ends in one or is empty, the name and `.mp4`. Distinct names give distinct paths. |
| Driver.Step | download_Luchia.py:117-135 | one iteration of the download loop; stated by `Driver.StepSkipsExisting` |
| Driver.StepSkipsExisting | download_Luchia.py:117-135 | an entry is skipped exactly when its path exists; then the downloader is not called and the filesystem is unchanged. Otherwise the downloader is called once with the entry's link and path, the outcome is success when the call reports no error and the failure with its message when it raises, and the paths afterwards are those the call leaves. |
| Driver.Drive | download_Luchia.py:108-137 | processing `n` entries records exactly `n` outcomes |
| Driver.DrivePrefix | download_Luchia.py:108-137 | processing more entries never changes the outcomes or calls of earlier ones |
| Driver.DriveOutcomeAt | download_Luchia.py:108-137 | entry `i`'s outcome is that of checking and downloading it against the files left by the earlier entries, whatever their outcomes; a failure does not stop the loop |
| Driver.FilesGrow | download_Luchia.py:108-135 | with a downloader that removes no path, the paths that exist after more entries include those after fewer: each entry sees the live filesystem |
| Driver.RepeatedNameSkipped | download_Luchia.py:115-121 | with a downloader that removes nothing and leaves its target after success, an entry whose name repeats an earlier entry that was skipped or downloaded is skipped |
| Driver.DriveCalls | download_Luchia.py:118-130 | the downloader is called in entry order, once for each entry that is not skipped and never for a skipped one |
| Driver.DownloadAll | download_Luchia.py:108-137 | the loop yields one outcome per entry, the calls and the final filesystem, as `Drive` defines them |
| Driver.ExistingFileSkipped | download_Luchia.py:118-121 | an entry whose `videos/Foo.mp4` exists is skipped without a download |
| Driver.FailureDoesNotStopBatch | download_Luchia.py:123-135 | when the second of three downloads raises, the outcomes are success, failure with its message, success |
| Driver.DuplicateNameSkipped | download_Luchia.py:115-121 | two entries named `a`: the first is downloaded, the second finds `videos/a.mp4` and is skipped, and the downloader is called once |
| Batch.Run | download_Luchia.py:53-137 | one outcome per qualifying row, equal to the driver run over the extracted names and links in the folder chosen from the answer |
| Batch.DistinctNamesDistinctPaths | download_Luchia.py:98-115 | two entries share an output path exactly when they share a sanitised name |

## Left out

- Console output, the banner and the progress messages: they only print. `tqdm` and `logging` are imported but never used.
- The re-prompting loops (download_Luchia.py:32-41, 62-67) are modelled by their acceptance tests: `Selection.Choose` and `Columns.AcceptLetter`. The loop itself only repeats the prompt.
- Selection.Choose: the answer is an integer. Parsing the text with `int()` and the `ValueError` path are not modelled. A non-numeric answer is simply one more rejected answer.
- `raise FileNotFoundError` and `exit()` are modelled as the `NotFound` outcome and the `Confirmed` predicate. Process termination is not modelled.
- `os.makedirs` is left out: the filesystem is a set of file paths, and directories are not modelled.
- `openpyxl` is replaced by a sheet given as a sequence of rows of cells. Cell values are strings or absent, and `str()` of numbers or dates is not modelled.
- `yt_dlp` is replaced by the `Downloader` function parameter. Which exceptions it raises, the download formats and the files it writes are outside the model. The parameter may write any paths.
- Columns.AcceptLetter: every non-ASCII answer is rejected. Python's `isalpha` and `upper` accept some of them: 'ı' and 'ſ' upper-case to 'I' and 'S', columns 8 and 18, and 'é' gives 'É', an index beyond Z.
- Selection.XlsxFiles: states which names are kept and how often, but not their order. Listing order is kept by construction of the filter.
- Text.Upper: only ASCII letters are upper-cased. Other characters are kept as they are.
- Windows path behaviour is outside the model: paths are joined as POSIX `os.path.join` does. On Windows the backslash that sanitising keeps is a path separator, and a title starting with `\` would make `os.path.join` drop the output folder.
- Case-insensitive filesystems (the macOS and Windows defaults) are outside the model: two paths are the same file only when they are the same string. There `Foo (x).mp4` and `foo (x).mp4` are one file and the script skips the second entry, while the model downloads it; `Batch.DistinctNamesDistinctPaths` is about path strings.
- The order of `os.listdir` is outside the model: the listing is an arbitrary sequence.
