# ucsrename in Dafny

`ucsrename` renames a sound file to the Universal Category System (UCS) pattern
`CatID_FXName_CreatorID_SourceID[_UserData].ext`. The user picks a category ID from a
fuzzy selector fed with the UCS category list. The program then prompts for the
remaining fields and confirms the rename. This project models the core of that program
and proves properties of the model:

- **the category table** (`ucs.dfy`): filtering and projecting the parsed CSV records,
  then sorting by CatID in place;
- **filename rendering** (`ucs.dfy`): joining the segments with `_`, where UserData is
  dropped when it is empty;
- **the renamer package** (`renamer.dfy`): the field prompt with its re-prompt loop,
  overrides and normalisation; collecting the fields; resolving the CatID from
  `UCS_CAT_ID` or from the selector; validating it against the table; and confirming
  the rename;
- **the command** (`cli.dfy`): the category list it prints for the selector, its own
  CatID parse, and its interactive run.

`text.dfy` gives the parts of Go's `strings` and `unicode` packages the program relies
on:

- `TrimSpace`, `Fields`, `Split` and `Join`;
- `TrimRight` with a one-character cutset;
- ASCII `ToLower`;
- the `<` ordering of strings.

`wrappers.dfy` holds `Option`, `Result` and `Outcome`.

Effects are turned into values:

- Standard input is an `Input`: the complete lines still to come, then an unterminated
  tail.
- Every prompting operation returns the input it leaves unread.
- The environment is an `Env`, where "" stands for unset.
- The selector run is a `Selection`: its output and how it ended.
- The category table is an `Option`, where None stands for a table that could not be
  read or parsed.
- The rename is returned as a plan or action instead of performed.

Each imperative operation is a method with a loop or early returns. It is proved equal
to a specification function, for example `Renamer.PromptField` against
`Renamer.Prompted`, and the properties are proved about those functions.

`main.go` carries its own copies of `render`, `prompt` and `promptFields`. They are the
same logic as `Filename.Render`, `promptField` and `promptFields` of the renamer, so the
model defines each once and the command reuses them. The rows below name both copies.

An empty or blank selector output is not rejected: the code goes on with the empty
CatID, as `Renamer.BlankChoiceGivesEmptyCatId` states.

## Model

| member | source | states |
|---|---|---|
| Ucs.CollectCategories | ucs/ucs.go:48-60 | the list built by the loop is the catalog of the records: the 6-field records in order, each projected |
| Ucs.CatalogMembers | ucs/ucs.go:49-59 | a category is in the list iff some record with exactly 6 fields projects to it; all other records are skipped |
| Ucs.CatalogProjects | ucs/ucs.go:53-59 | when every record has 6 fields, the list has one entry per record, taking columns 0, 1, 2, 3, 5 and ignoring column 4 |
| Ucs.SortByCatId | ucs/ucs.go:61-66 | the in-place sort leaves the array in non-decreasing CatID order and a permutation of what it held |
| Ucs.Categories | ucs/ucs.go:36-67 | the returned list is sorted by CatID and a permutation of the catalog of the records |
| Ucs.SortedPairwise | ucs/ucs_test.go:16-21 | sortedness checked on neighbours, as the test checks it, orders every pair |
| Ucs.OneRowCatalog | ucs/ucs_test.go:34-42 | a table with one well-formed row gives exactly that row's category, with its CatID |
| Ucs.Render | ucs/ucs.go:83-89 | the rendered name ends with the extension verbatim |
| Ucs.RenderWithUserData | ucs/ucs.go:84-88 | with UserData, the name is the five fields joined by `_`, then the extension |
| Ucs.RenderWithoutUserData | ucs/ucs.go:84-88 | without UserData, the name is the four mandatory fields joined by `_` with no trailing `_`, then the extension; the command's `render` (main.go:218-224) is the same |
| Ucs.RenderSplits | ucs/ucs.go:70-71 | when no field holds `_`, splitting the name without its extension on `_` gives back the 4 or 5 segments |
| Ucs.RenderExample | ucs/ucs_test.go:52-61 | the test's AMBPark filename renders to `AMBPark_Central Park Bethesda Fountain_Buddin_Phonogrifter_Clippy.wav` |
| Text.JoinSplit | renamer/renamer.go:104-105 | `strings.Split` loses nothing: joining its pieces with the separator gives back the string |
| Text.SplitJoin | ucs/ucs.go:88 | `strings.Split` undoes `strings.Join` when no part holds the separator |
| Text.JoinFieldsCollapses | renamer/renamer.go:182 | joining the fields of a trimmed string with `-` replaces each white-space run by one `-` |
| Text.LessTotal | ucs/ucs.go:61-66 | the CatID comparison orders any two different strings one way or the other |
| Text.LessTransitive | ucs/ucs.go:61-66 | the CatID comparison is transitive |
| Renamer.AcceptSpec | renamer/renamer.go:173-182 | a line is rejected iff it is blank for a required field or holds `_`; an accepted value has its white-space runs replaced by single `-`, no white space, no `_`, and is empty only for a blank line |
| Renamer.PromptField | renamer/renamer.go:158-184 | the override check and the re-prompt loop return what `Prompted` says, and leave the input it says; the command's `prompt` (main.go:233-259) is the same |
| Renamer.OverrideVerbatim | renamer/renamer.go:159-164 | a non-empty override is returned unchanged, with no input read |
| Renamer.FirstAcceptableLine | renamer/renamer.go:166-183 | rejected lines are consumed; the result is the value of the first acceptable line, and reading resumes after it |
| Renamer.NoAcceptableLine | renamer/renamer.go:169-172 | with no acceptable line, every line is consumed and the read error is returned; a partial line is never accepted |
| Renamer.InteractiveResult | renamer/renamer.go:166-183 | a prompted value holds no white space and no `_`, and is non-empty for a required field; a failure is the read error, after all input is consumed |
| Renamer.HyphenExample | renamer/renamer.go:173-182 | `a   b  c` is accepted as `a-b-c` for any word characters a, b, c |
| Renamer.PromptFields | renamer/renamer.go:111-149 | the fields are set in the order FXName, CreatorID, SourceID, UserData, stopping at the first error, as `Collected` says; the command's `promptFields` (main.go:180-216) is the same |
| Renamer.RequiredPromptNonEmpty | renamer/renamer.go:174-177 | a required prompt never returns an empty value |
| Renamer.CollectedFailsOnlyAtEndOfInput | renamer/renamer.go:123-141 | the "is required" returns never fire: a failure is always the read error |
| Renamer.CollectedFields | renamer/renamer.go:111-149 | the CatID is kept verbatim; FXName, CreatorID and SourceID are non-empty; overrides are verbatim; prompted fields hold no white space and no `_` |
| Renamer.OverridesLeaveOnlyFxName | renamer/renamer.go:127-146 | with all three overrides set, only FXName is read from input |
| Renamer.CollectedNameSplits | renamer/renamer.go:111-149 | with a `_`-free CatID and `_`-free overrides, the collected filename renders to a name that splits back into its segments |
| Renamer.OverrideKeepsDelimiter | renamer/renamer.go:159-164 | an override holding `_` is not validated and reaches the filename unchanged |
| Renamer.HasCatId | renamer/renamer.go:207-209 | the membership test is true iff some category has an equal CatID |
| Renamer.ValidateCatId | renamer/renamer.go:202-214 | validation passes iff the table loads and holds the CatID; otherwise it fails with `CatalogUnavailable` or `unknown CatID` |
| Renamer.ValidateAgainstRecords | renamer/renamer.go:203-212 | against the sorted table of the records, a CatID passes iff some 6-field record holds it in column 2 |
| Renamer.BuildFilename | renamer/renamer.go:77-109 | an override CatID is validated and used; otherwise a non-zero selector exit fails, and any other run error is ignored and the output parsed |
| Renamer.UnknownOverrideFailsBeforePrompting | renamer/renamer.go:78-81 | an override CatID missing from the table fails with `unknown CatID` before any prompt |
| Renamer.ParseChoice | renamer/renamer.go:104-106 | the CatID read from the selector output is the first blank-separated token of the trimmed output with its trailing `:` removed: it holds no blank and does not end in `:` |
| Renamer.BlankChoiceGivesEmptyCatId | renamer/renamer.go:104-108 | a blank selector output yields the empty CatID, which is not rejected: when UCS_CAT_ID is unset and the selector did not exit with a non-zero status, the fields are collected for it |
| Renamer.ConfirmingAnswers | renamer/renamer.go:186-200 | the answer confirms iff it is one of the ten letter-case spellings of `y` and `yes` |
| Renamer.Run | renamer/renamer.go:45-75 | a directory or a name without extension is an error; otherwise the filename is built and the rename planned, as `Planned` says |
| Renamer.RenameOnlyWhenConfirmed | renamer/renamer.go:62-74 | once the filename is built, a rename happens iff the run is forced or confirmed, and then to the rendered name with the source extension; any answer that does not confirm is a success with no rename |
| Cli.PrintCategories | main.go:64-80 | the loop prints one line per 6-field record: the CatID, the category and subcategory, then the synonyms, separated by bars |
| Cli.ListingInRecordOrder | main.go:64-80 | the list is not sorted: the k-th line is the k-th record's when every record is well formed |
| Cli.ListingLines | main.go:64-76 | a line is printed iff some 6-field record projects to it |
| Cli.ListedLineSelects | main.go:165-167 | choosing a printed line yields its CatID; the renamer's parse yields the same iff the CatID does not end in `:` |
| Cli.SelectedCatId | main.go:165-167 | the command's CatID is the first blank-separated token of the trimmed selector output: a prefix that holds no blank and ends at the first blank or at the end, so a trailing `:` is kept |
| Cli.NewUcsFilename | main.go:150-170 | a non-zero selector exit fails; otherwise the fields are collected for the first token of the trimmed output |
| Cli.SameAsRenamer | main.go:158-169 | with UCS_CAT_ID unset and a token not ending in `:`, the command builds the same filename as the renamer |
| Cli.RunInteractive | main.go:92-144 | no name shows the usage; a directory or missing extension is an error; otherwise the filename is built and renamed when forced or confirmed |
| Cli.RenameOnlyWhenConfirmed | main.go:126-142 | once the filename is built, the command renames iff forced or on `y`/`yes` in any case, to the rendered name; `n`, `no` and any other answer keep the file |

## Left out

- Reading the CSV: opening the embedded or `UCS_CSV_FILE` file and `encoding/csv`
  parsing are library and file-system work. The model starts from the parsed records.
  A load failure is a table of None, reported as `CatalogUnavailable`; the wrapped Go
  error's text is not modelled.
- `os.Getenv`: the values come in as `Env`. `exec.LookPath` and the selector process
  (`exec.Command`, `cmd.Run`) are external; their result comes in as a `Selection`.
- The selector shares standard input with the prompts. The model assumes it reads
  none of the lines the prompts later read, and passes the input on unchanged.
- `os.Stat`, `filepath.Ext`, `filepath.Base` and `os.Rename` are file-system effects.
  The model takes the directory flag and the extension as given, and returns the
  rename as a plan instead of performing it. The error `os.Stat` returns for a missing
  or unreadable path (renamer/renamer.go:46-49, main.go:107-110) is not modelled: the
  path is taken to exist. Rename errors are not modelled either.
- `isatty`, flag parsing, the usage text, and the prompt, error and hint messages are
  terminal plumbing. They are not modelled, apart from the lines `printCategories`
  prints.
- Renamer.ReadString: stdin is an ideal queue of lines. Go creates a fresh
  `bufio.Reader` on every prompt turn, which may buffer more than one line of a real
  stream. The model does not capture that.
- Renamer.Run, Cli.RunInteractive: the confirmation answer is the token that
  `fmt.Fscanf("%s")` (renamer) or `fmt.Scanf("%s")` (command) reads, taken as a
  parameter. How these tokenise and consume standard input is not modelled.
- Renamer.PromptFields: on an error, Go returns the partially filled filename
  alongside the error. Every caller discards it, so the model returns only the error.
- Renamer.Run: the loop in `confirm` and the one around the confirmation switch in
  `runInteractive` never repeat, since every case returns. Both are modelled as a
  single switch.
- Ucs.SortByCatId: Go sorts with pdqsort (`slices.SortFunc`) and a comparator that
  never returns 0. The model sorts by insertion. It promises a sorted permutation and
  nothing about the order of equal CatIDs.
- Text.Lower: `strings.ToLower` is modelled on ASCII letters only. Other letters are
  left unchanged, which matters only for answers made of non-ASCII letters.
- Strings are sequences of code points, so invalid UTF-8 is out of scope.
