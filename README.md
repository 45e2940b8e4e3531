# tv_renamer in Dafny

A model of `tv_renamer`, a command-line tool that renames television episode
files. It converts the tool's "absolute" numbering, which runs across the whole
series, into season-and-episode names such as `S01E01`.

The tool works on a root directory whose sub-directories are season folders.
The season number is the first number in the folder's name. Within each folder:

- the order of the files comes from the first number in each file's name;
- files that share a number are the parts of one episode;
- every new name is built with zero-padded season, episode and part fields
  between a field separator and an episode separator.

The model follows the program's structure:

- `Text`: substring search, Python's `str.replace(old, new, 1)` and
  `str.split`, with `Join` as the inverse of `Split`.
- `Tokens`: the maximal ASCII digit runs of a name (`re.findall('\d+', …)`),
  their values (`int`), and the decimal text of a counter (an f-string).
- `Padding`: the zero-padding policy for the season, episode and part fields.
- `Ordering`: the processing order of a folder:
  - a lexicographic sort of the listing (`get_content`);
  - a filter that keeps only the names that contain a number;
  - a stable sort by the value of the first number.
- `Arguments`: `load_arguments`, as a specification function `Scanned` over
  the argument vector and as the imperative `LoadArguments` proved against it.
- `Numbering`: the per-folder loops of `add_numbering` (marker expansion) and
  `replace_absolute` (absolute-to-season conversion). Both are methods whose
  counters are proved against plan functions, and the plans are related to the
  episode, part and label rules by lemmas.
- `Renamer`:
  - the rename primitive;
  - the `Library` class, one root directory whose listing and folder
    listings the methods update in place: `replace_ss`, and the folder loop
    shared by `add_numbering` and `replace_absolute`;
  - the option dispatch of `main` over the root paths.

Behaviour that follows the code where its documentation says otherwise:

- The field separator is written in front of every label, so with the default
  separators `***01.mkv` becomes ` - S01E01 - 01.mkv`, and `01.mkv` becomes
  ` - S01E01 - .mkv`. The docstring examples at `tv_renamer.py:125` and
  `tv_renamer.py:228` show `S01E01 - 01.mkv` and `S01E01.mkv`.
  `Numbering.MarkerTarget` and `Numbering.AbsoluteTarget` state the labels as
  the code writes them.
- In `replace_absolute` the guard `i < episode_per_file` is always true. So
  the episode separator follows every fragment, the last one included, and not
  only the gaps between fragments (`Numbering.Fragment`, `Numbering.NameFile`).
- Files are grouped into episodes by comparing their first numbers as text,
  but they are sorted by the numbers' values. So `05.mkv` and `5.mkv` sit next
  to each other, in lexicographic order, yet count as two episodes.
  `Numbering.EpisodeByNumber` states when text and value agree.
- The part count of a file counts every file of the folder that has the same
  first number, not just the adjacent ones (`Numbering.PartIndex`).
- A season written `0` stays `0`: it is below 10 but starts with `0`, so it
  gets no pad (`Padding.SeasonFieldShape`).
- `replace_ss` is defined but `main` never calls it. It is modelled as
  `Renamer.Library.ReplaceSubstring`.
- `replace_absolute` with zero episodes per file would reach the rename with
  no new name. `main` only ever passes 1 or 2, so the model requires at least
  one (`Renamer.Supported`).

The file system is a map: each root is a `Library` whose `entries` are the
root's names and whose `folders` map each sub-directory to its listing.
`os.rename` is modelled as follows:

- the source takes the new name and replaces an entry already called that;
- a rename onto the same name, or of a name that is absent, changes nothing;
- at the root, a renamed folder keeps its listing under its new name.

This is not the whole of POSIX `rename`. That fails on an absent source, and
Python raises `FileNotFoundError`. It also fails when a file is renamed onto a
directory, where the model drops the folder. "## Left out" lists these
failures.

## Model

| member | source | states |
|---|---|---|
| Text.IndexOfSpec | tv_renamer/tv_renamer.py:45-55 | the substring search finds the first occurrence of the pattern, none earlier, and reports none exactly when the pattern occurs nowhere |
| Text.IndexFromSpec | tv_renamer/tv_renamer.py:45-55 | the search from position k finds the first occurrence at or after k, or reports that there is none from k on |
| Text.Contains | tv_renamer/tv_renamer.py:45-55 | Python's `pat in s`: the search finds an occurrence |
| Text.ReplaceFirst | tv_renamer/tv_renamer.py:201 | Python's `s.replace(old, new, 1)`: the text before the first occurrence, the replacement, the text after it; with no occurrence, `s` itself |
| Text.Drop | tv_renamer/tv_renamer.py:46-55 | `arg[k:]` has length `len(arg) - k`, or 0 when k is past the end, and the first k characters followed by it give back `arg` |
| Text.Split | tv_renamer/tv_renamer.py:46 | `split` always yields at least one piece |
| Text.SplitJoin | tv_renamer/tv_renamer.py:46-49 | joining the pieces of a split with the separator gives back the original string |
| Text.SplitLeftmost | tv_renamer/tv_renamer.py:49 | every separator a split takes is the leftmost one after the previous piece, which fixes the pieces of `split(",,")` even though `,,` overlaps itself |
| Text.PieceThenSeparator | tv_renamer/tv_renamer.py:49 | the piece before the first separator, followed by the separator, has its first separator right after the piece |
| Text.SplitPiecesFree | tv_renamer/tv_renamer.py:49 | no piece of a split contains the separator |
| Text.ReplaceFirstSpec | tv_renamer/tv_renamer.py:201 | `replace(old, new, 1)` leaves a string without `old` unchanged, and otherwise replaces exactly the first occurrence and keeps the text on both sides |
| Text.ReplaceFirstAt | tv_renamer/tv_renamer.py:286 | given a known first occurrence at i, the result is prefix up to i, the replacement, then the rest after the occurrence |
| Text.FirstCommaPiece | tv_renamer/tv_renamer.py:48 | the first comma-separated piece is non-empty exactly when the string is non-empty and does not start with a comma |
| Tokens.IsDigit | tv_renamer/tv_renamer.py:145 | the character class `\d` as modelled: one of the ASCII digits `0` to `9` |
| Tokens.HasDigit | tv_renamer/tv_renamer.py:145-153 | `len(re.findall('\d+', s)) > 0`: some character of s is a digit |
| Tokens.RunLength | tv_renamer/tv_renamer.py:145 | the digit run at the start of a string is all digits and maximal |
| Tokens.DigitRuns | tv_renamer/tv_renamer.py:145 | `re.findall('\d+', s)` yields only non-empty digit strings, and yields nothing exactly when s has no digit |
| Tokens.FirstDigit | tv_renamer/tv_renamer.py:147 | the first digit of a name lies inside the name and has no digit before it |
| Tokens.FirstToken | tv_renamer/tv_renamer.py:147 | the first element of `findall` is a non-empty digit string |
| Tokens.FirstTokenAt | tv_renamer/tv_renamer.py:261 | the first token is the maximal digit run starting at the first digit: a digit-free prefix, the token, then no further digit |
| Tokens.Value | tv_renamer/tv_renamer.py:156 | Python's `int(t)` on a digit string, leading zeros allowed: the decimal value, digit by digit |
| Tokens.DigitValue | tv_renamer/tv_renamer.py:156 | one digit's value is below 10 |
| Tokens.DigitChar | tv_renamer/tv_renamer.py:195 | the digit written for a value below 10 reads back as that value |
| Tokens.Decimal | tv_renamer/tv_renamer.py:195 | `f"{n}"` is a digit string with value n and no leading zero |
| Tokens.DecimalLength | tv_renamer/tv_renamer.py:180-185 | numbers below 10, 100 and 1000 are written with 1, 2 and 3 digits |
| Tokens.LeadingZero | tv_renamer/tv_renamer.py:176-177 | a leading zero does not change the value of a digit string |
| Tokens.ValueAtLeastTen | tv_renamer/tv_renamer.py:176 | a token of two or more digits that does not start with 0 is at least 10 |
| Tokens.DecimalValue | tv_renamer/tv_renamer.py:156-157 | writing the value of a canonical token (no leading zero) gives back the token: `int` and `f"{}"` are inverse there |
| Tokens.CanonicalInjective | tv_renamer/tv_renamer.py:156-165 | canonical tokens with equal values are equal as text |
| Padding.SeasonPad | tv_renamer/tv_renamer.py:176-177 | one zero when the season is below 10 and its text does not start with 0, otherwise none |
| Padding.EpisodePad | tv_renamer/tv_renamer.py:180-185 | two zeros below 10 and one below 100 in a folder of 100 files or more; one zero below 10 in a smaller folder; otherwise none |
| Padding.PartPad | tv_renamer/tv_renamer.py:192-193 | one zero below 10, otherwise none |
| Padding.SeasonField | tv_renamer/tv_renamer.py:195 | the season field `{seasonzero}{season_nb}`: the season pad, then the season text as found in the folder name |
| Padding.EpisodeField | tv_renamer/tv_renamer.py:195 | the episode field `{zero}{episode_itt}`: the episode pad for a folder of `total` files, then the episode counter in decimal |
| Padding.PartField | tv_renamer/tv_renamer.py:195 | the part field `{partzero}{part_itt}`: the part pad, then the part counter in decimal |
| Padding.ZerosThenDigits | tv_renamer/tv_renamer.py:171-185 | prepending the pad zeros keeps a digit string a digit string of the same value |
| Padding.SeasonFieldShape | tv_renamer/tv_renamer.py:176-177 | the season field has the season's value; it has at least two digits when the season text has no leading zero; and it is the season text itself when that text starts with 0 or the season is 10 or more |
| Padding.EpisodeFieldShape | tv_renamer/tv_renamer.py:180-185 | the episode field has the episode's value; for episodes below 100 it is two characters in a folder of fewer than 100 files; for episodes below 1000 it is three characters in a folder of 100 or more; no pad is added from episode 10 on in a small folder, nor from episode 100 on in a large one |
| Padding.PartFieldShape | tv_renamer/tv_renamer.py:192-193 | the part field has the part's value, is two characters below 100, and has no pad from part 10 on |
| Ordering.LexLe | tv_renamer/tv_renamer.py:79 | Python's `a <= b` on strings, the order `list.sort()` uses: the empty string comes first; otherwise the first code points decide, and on a tie the rests |
| Ordering.LexLeTotal | tv_renamer/tv_renamer.py:79 | the string order is total |
| Ordering.LexLeTransitive | tv_renamer/tv_renamer.py:79 | the string order is transitive |
| Ordering.LexInsert | tv_renamer/tv_renamer.py:79 | inserting adds exactly the one element |
| Ordering.LexInsertSorted | tv_renamer/tv_renamer.py:79 | inserting into a sorted listing keeps it sorted |
| Ordering.LexInsertBound | tv_renamer/tv_renamer.py:79 | a lower bound of the element and of the listing bounds the result of the insertion |
| Ordering.LexInsertDistinct | tv_renamer/tv_renamer.py:79 | inserting a new name into distinct names keeps them distinct |
| Ordering.LexSort | tv_renamer/tv_renamer.py:79 | `list.sort()` is a permutation of the listing |
| Ordering.LexSortCorrect | tv_renamer/tv_renamer.py:79 | the sorted listing is in ascending lexicographic order, is a permutation, and keeps distinct names distinct |
| Ordering.Key | tv_renamer/tv_renamer.py:156 | the sort key of a file: `int` of its first token |
| Ordering.DigitBearing | tv_renamer/tv_renamer.py:153 | the filter keeps exactly the names with a digit, with their multiplicities |
| Ordering.KeyInsert | tv_renamer/tv_renamer.py:156 | inserting by key adds exactly the one element |
| Ordering.KeyInsertBound | tv_renamer/tv_renamer.py:156 | a lower bound of the keys survives insertion |
| Ordering.KeyInsertSorted | tv_renamer/tv_renamer.py:156 | inserting into a key-sorted list keeps it key-sorted |
| Ordering.KeyInsertStable | tv_renamer/tv_renamer.py:156 | the inserted element comes before the elements that share its key |
| Ordering.KeySort | tv_renamer/tv_renamer.py:156 | `sort(key=...)` is a permutation |
| Ordering.KeySortSorted | tv_renamer/tv_renamer.py:156 | the result is non-decreasing by key |
| Ordering.WithKeyAppend | tv_renamer/tv_renamer.py:156 | the elements of one key in a concatenation are those of each part, concatenated |
| Ordering.KeySortStable | tv_renamer/tv_renamer.py:156 | the sort is stable: the elements that share a key keep their relative order |
| Ordering.WithKeyMembers | tv_renamer/tv_renamer.py:156 | the elements of one key are elements of the list |
| Ordering.WithKeySorted | tv_renamer/tv_renamer.py:156 | the elements of one key of a lexicographically sorted list are lexicographically sorted |
| Ordering.DigitBearingSorted | tv_renamer/tv_renamer.py:153 | filtering a sorted listing keeps it sorted |
| Ordering.Ordered | tv_renamer/tv_renamer.py:153-156 | every file in the processing order has a number |
| Ordering.OrderedCorrect | tv_renamer/tv_renamer.py:150-156 | the processing order holds exactly the numbered names of the folder (a permutation of the filtered listing), is non-decreasing by first-number value, and files with equal values stay in lexicographic order |
| Arguments.Defaults | tv_renamer/tv_renamer.py:32-38 | the dictionary before the scan: no options, no paths, marker `***`, both separators ` - ` |
| Arguments.KindOf | tv_renamer/tv_renamer.py:45-55 | the branch of the if/elif chain an argument takes, each test a substring test, in the source's order |
| Arguments.OptionItems | tv_renamer/tv_renamer.py:46 | the option names of an `-options:` argument: `arg[9:].split(",")` |
| Arguments.PathsAccepted | tv_renamer/tv_renamer.py:48 | a `-paths:` argument is used only when the first comma-separated piece of `arg[7:]` is non-empty |
| Arguments.PathItems | tv_renamer/tv_renamer.py:49 | the paths of an accepted `-paths:` argument: `arg[7:].split(",,")` |
| Arguments.Step | tv_renamer/tv_renamer.py:45-55 | one argument's effect on the dictionary: options and accepted paths are appended, the marker and separators are set to the text after their prefix, anything else is ignored |
| Arguments.Scanned | tv_renamer/tv_renamer.py:32-55 | the dictionary after the defaults and every argument, left to right |
| Arguments.WithSlash | tv_renamer/tv_renamer.py:58-60 | the path as `load_arguments` returns it: unchanged when it is exactly "/", otherwise with "/" appended |
| Arguments.LoadArguments | tv_renamer/tv_renamer.py:23-62 | the loop's dictionary is the left-to-right scan of the vector, then every path except "/" gets a trailing "/" |
| Arguments.CollectMember | tv_renamer/tv_renamer.py:43-49 | a name is in the concatenated contributions exactly when some argument contributes it |
| Arguments.ScannedCollects | tv_renamer/tv_renamer.py:43-49 | options and paths are the concatenation, in argument order, of what each `-options:` and accepted `-paths:` argument contributes |
| Arguments.OptionsCollected | tv_renamer/tv_renamer.py:45-46 | a name is an option exactly when some `-options:` argument lists it |
| Arguments.PathsCollected | tv_renamer/tv_renamer.py:47-49 | a path is listed exactly when some accepted `-paths:` argument holds it between double commas |
| Arguments.PathsAcceptedIff | tv_renamer/tv_renamer.py:48 | a `-paths:` argument is accepted exactly when its value is non-empty and does not start with a comma |
| Arguments.StepSetting | tv_renamer/tv_renamer.py:50-55 | one argument sets the marker or a separator only when it is of that kind, to the text after the prefix |
| Arguments.SettingLastWins | tv_renamer/tv_renamer.py:50-55 | the marker and the separators take the value of the last argument of their kind |
| Arguments.SettingDefault | tv_renamer/tv_renamer.py:32-38 | with no argument of their kind they keep the defaults `***`, ` - `, ` - ` |
| Numbering.FirstTokens | tv_renamer/tv_renamer.py:157 | `numbers` has one token per file |
| Numbering.Entries | tv_renamer/tv_renamer.py:160 | a plan has one rename per file |
| Numbering.EntriesAt | tv_renamer/tv_renamer.py:160 | entry m of a plan is file m's rename |
| Numbering.EpisodeAt | tv_renamer/tv_renamer.py:158-168 | the episode counter at file m: 1 for the first file, then one more for every file whose token text differs from the previous file's |
| Numbering.PartIndex | tv_renamer/tv_renamer.py:188-197 | the part counter at file m: 0 when its token occurs once in the folder, otherwise its place, from 1, in its run of equal tokens |
| Numbering.MarkerLabel | tv_renamer/tv_renamer.py:195-198 | the text that replaces the marker: field separator, `S` and season field, `E` and episode field, ` Part ` and part field when the part is positive, then the episode separator |
| Numbering.MarkerEntry | tv_renamer/tv_renamer.py:201 | the rename of file m: from its name to its name with the first marker replaced by the label of its episode and part |
| Numbering.MarkerPlan | tv_renamer/tv_renamer.py:160-205 | the renames `add_numbering` issues for a folder's ordered numbered files: one per file, in order, each file's `MarkerEntry` |
| Numbering.Fragment | tv_renamer/tv_renamer.py:280-285 | one episode's label in `replace_absolute`: field separator, `S` and season field, `E` and either the file's old number ("keepep") or the episode field, then the episode separator |
| Numbering.AbsoluteLabel | tv_renamer/tv_renamer.py:263-285 | `newepnum` after the inner loop: the fragments of episodes first+1 … first+count, one after the other |
| Numbering.AbsoluteEntry | tv_renamer/tv_renamer.py:286 | the rename of file m: from its name to its name with the first occurrence of its first number replaced by the labels of the episodes after the m·k held by earlier files |
| Numbering.AbsolutePlan | tv_renamer/tv_renamer.py:260-291 | the renames `replace_absolute` issues for a folder's ordered numbered files: one per file, in order, each file's `AbsoluteEntry` |
| Numbering.RunStart | tv_renamer/tv_renamer.py:165-168 | the run of equal tokens around a position starts where the previous token differs |
| Numbering.CountersStep | tv_renamer/tv_renamer.py:160-197 | the counters move as the loop moves them: a different token adds one episode, otherwise the episode stays; the part is 0 for a lone token, 1 when a run starts, and one more inside a run |
| Numbering.NumberFile | tv_renamer/tv_renamer.py:161-198 | one pass of the loop turns the counters of file m-1 into those of file m and yields file m's label |
| Numbering.NumberMarkers | tv_renamer/tv_renamer.py:148-206 | the loop over a folder's files yields, file by file, the marker replaced by the label of the file's episode and part |
| Numbering.MarkerEntriesStep | tv_renamer/tv_renamer.py:201 | the plan for m+1 files is the plan for m files plus file m's rename |
| Numbering.EpisodeMonotone | tv_renamer/tv_renamer.py:148-166 | episodes start at 1 and grow by at most one per file, so they are gap-free |
| Numbering.EpisodeSameIff | tv_renamer/tv_renamer.py:165-168 | two files share an episode exactly when every file between them has the same token text |
| Numbering.EpisodeByNumber | tv_renamer/tv_renamer.py:156-168 | in a value-sorted folder whose numbers have no leading zeros, two files share an episode exactly when they share their first number |
| Numbering.PartsCount | tv_renamer/tv_renamer.py:188-197 | inside a run of equal tokens the parts count 1, 2, 3, … when the token occurs more than once in the folder, and are all 0 otherwise |
| Numbering.PartZeroIff | tv_renamer/tv_renamer.py:188-197 | a file gets no part exactly when its token occurs once in the folder |
| Numbering.MarkerTarget | tv_renamer/tv_renamer.py:195-201 | file m keeps its name when it has no marker, and otherwise has its first marker replaced by its label (a multi-part label when its part is positive) |
| Numbering.NameFile | tv_renamer/tv_renamer.py:263-286 | the inner loop writes one fragment per episode the file holds, advances the counter by episode_per_file, and replaces the file's first token by all of them |
| Numbering.ConvertAbsolute | tv_renamer/tv_renamer.py:251-287 | the loop over a folder's files gives file m the episodes m·k+1 … m·k+k, written in place of its first number |
| Numbering.AbsoluteSplice | tv_renamer/tv_renamer.py:261-286 | replacing the first occurrence of a name's first token splices in exactly at the name's first digit |
| Numbering.NoEarlierOccurrence | tv_renamer/tv_renamer.py:286 | a digit string cannot occur inside a digit-free prefix |
| Numbering.AbsoluteTarget | tv_renamer/tv_renamer.py:260-286 | file m's new name keeps everything but its first number, which becomes the labels of episodes m·k+1 … m·k+k |
| Numbering.DoubleEpisode | tv_renamer/tv_renamer.py:263-285 | with two episodes per file the label is the fragments of two consecutive episodes |
| Numbering.KeepEpLabel | tv_renamer/tv_renamer.py:280-281 | with "keepep" the label does not depend on the episode counter |
| Renamer.RenameIn | tv_renamer/tv_renamer.py:205 | a rename inside one directory, as modelled above: a present source takes the new name and replaces an entry already called that; otherwise nothing changes |
| Renamer.MoveFolder | tv_renamer/tv_renamer.py:101 | the folder listings after a rename at the root: a renamed folder keeps its listing under the new name, and a folder that is replaced disappears |
| Renamer.ApplyAtRoot | tv_renamer/tv_renamer.py:101 | the root entries and folder listings after the renames of a plan issued at the root, in order, each renaming the entry and moving its folder |
| Renamer.SubstituteMembers | tv_renamer/tv_renamer.py:205 | after the substitution the listing holds b when a was there, and every other name except a and b |
| Renamer.DistinctCons | tv_renamer/tv_renamer.py:75 | the tail of distinct names is distinct and lacks the head |
| Renamer.DistinctPrefix | tv_renamer/tv_renamer.py:144 | among distinct names no name occurs before its own position |
| Renamer.SubstituteDistinct | tv_renamer/tv_renamer.py:205 | a substitution keeps names distinct |
| Renamer.RenameInSpec | tv_renamer/tv_renamer.py:205 | a rename of an existing entry to a different name removes it, adds the new name, keeps every other name and keeps the names distinct; any other rename changes nothing |
| Renamer.ApplyRenames | tv_renamer/tv_renamer.py:205 | the listing of one directory after the renames of a plan issued in order, each as `RenameIn` |
| Renamer.ApplyIdentity | tv_renamer/tv_renamer.py:205 | renames of every file to its own name change nothing |
| Renamer.ApplyDistinct | tv_renamer/tv_renamer.py:205 | a sequence of renames keeps a listing's names distinct |
| Renamer.ApplyAtRootValid | tv_renamer/tv_renamer.py:101 | renames at the root keep the names distinct and every folder an entry, and keep the names non-empty when no target is empty |
| Renamer.MoveFolderKeys | tv_renamer/tv_renamer.py:101 | after a rename at the root every folder is still an entry |
| Renamer.ApplyAtRootNames | tv_renamer/tv_renamer.py:101 | the root names after a plan are those of the renames applied to the root listing |
| Renamer.Hidden | tv_renamer/tv_renamer.py:98 | the entries `replace_ss` skips: names whose first character is "." |
| Renamer.Substitutions | tv_renamer/tv_renamer.py:96-103 | the renames of `replace_ss` over a sorted listing, in order: one per visible name, to the name with its first `old` replaced |
| Renamer.SubstitutionsSpec | tv_renamer/tv_renamer.py:96-103 | `replace_ss` renames exactly the visible names, each with its first `old` replaced by `new`, and renames nothing exactly when every name is hidden |
| Renamer.SubstituteNothing | tv_renamer/tv_renamer.py:96-103 | when no name contains `old`, the root ends up as it was |
| Renamer.IdentityAtRoot | tv_renamer/tv_renamer.py:101 | renames to the same names leave the root and its folders as they were |
| Renamer.FolderPlan | tv_renamer/tv_renamer.py:150-201 | the renames of one folder: the plan of `add_numbering` or of `replace_absolute` over the folder's processing order |
| Renamer.Pass | tv_renamer/tv_renamer.py:145-206 | a folder's listing after one pass: its plan applied in order when the folder's name has a number and "noact" is unset, otherwise the listing unchanged |
| Renamer.ProcessedIff | tv_renamer/tv_renamer.py:153-160 | a folder's processing order is non-empty exactly when one of its names has a number |
| Renamer.NoActUnchanged | tv_renamer/tv_renamer.py:204-206 | with "noact" a pass changes no folder |
| Renamer.UnmarkedFolder | tv_renamer/tv_renamer.py:201-205 | `add_numbering` leaves a folder with no marker in any name as it is |
| Renamer.Library.constructor | tv_renamer/tv_renamer.py:75-77 | a root with the given listing and folder listings |
| Renamer.Library.RenameEntry | tv_renamer/tv_renamer.py:101 | a rename at the root renames the entry and moves a folder's listing to the new name |
| Renamer.Library.RenameInFolder | tv_renamer/tv_renamer.py:205 | a rename inside folder f changes only f's listing |
| Renamer.Library.ApplyPlan | tv_renamer/tv_renamer.py:160-205 | the renames of a plan, issued in order in one folder, give the plan applied to the folder's listing; nothing else changes |
| Renamer.Library.ReplaceSubstring | tv_renamer/tv_renamer.py:82-104 | the root after `replace_ss` is the plan of renames applied in sorted order, and the result is true exactly when the root has a visible entry; the names stay distinct and every folder stays an entry; the root stays a valid listing when no visible name is rewritten to the empty name |
| Renamer.SubstitutionsValid | tv_renamer/tv_renamer.py:96-103 | the renames of `replace_ss` keep the root's names distinct and every folder an entry, and keep the names non-empty when no visible name is rewritten to the empty name |
| Renamer.Library.SubstituteAll | tv_renamer/tv_renamer.py:96-103 | the loop issues the plan's renames one by one, and is positive exactly when the plan is non-empty |
| Renamer.Library.RenameVisible | tv_renamer/tv_renamer.py:98-103 | a visible entry is renamed with its first `old` replaced, extending the issued plan by one rename |
| Renamer.SortedNamesNonEmpty | tv_renamer/tv_renamer.py:98 | sorting non-empty names keeps them non-empty, so `folderlist[n][0]` exists |
| Renamer.VisibleSorted | tv_renamer/tv_renamer.py:94-98 | sorting keeps the visible names |
| Renamer.SubstitutionsStep | tv_renamer/tv_renamer.py:98-102 | a hidden name adds no rename and a visible name adds its own |
| Renamer.ApplyAtRootStep | tv_renamer/tv_renamer.py:101 | one more rename at the root renames the entry and moves its folder |
| Renamer.PassByPlan | tv_renamer/tv_renamer.py:145-205 | the pass over a folder whose name has a number is the renames of the plan for its first number, or nothing with "noact" |
| Renamer.PlanFolder | tv_renamer/tv_renamer.py:150-163 | the plan of a folder is the chosen pass's plan over the ordered numbered files, and whether the folder holds a numbered file |
| Renamer.Library.RenumberFolder | tv_renamer/tv_renamer.py:145-206 | folder f becomes its listing after one pass, when its name has a number and "noact" is unset; the result is true exactly when f's name and one of its files have numbers |
| Renamer.PassAll | tv_renamer/tv_renamer.py:144 | passes over folders keep the set of folders |
| Renamer.PassAllOutside | tv_renamer/tv_renamer.py:144 | a folder not yet visited keeps its listing |
| Renamer.PassAllSpec | tv_renamer/tv_renamer.py:144-206 | visiting distinct folders passes over each visited folder once and leaves the others alone |
| Renamer.PassAllStep | tv_renamer/tv_renamer.py:144-206 | visiting one more folder gives it its pass, from the listing it had at the start |
| Renamer.AnyNumberedIff | tv_renamer/tv_renamer.py:206-207 | visiting every folder reports a match exactly when some folder is numbered |
| Renamer.AnyNumberedMembers | tv_renamer/tv_renamer.py:206 | the visited folders report a match exactly when one of them is numbered |
| Renamer.PassAllRenumbers | tv_renamer/tv_renamer.py:144-207 | visiting every folder once, in any order, is one pass over the root, and reports a match exactly when one exists |
| Renamer.Library.PassFolders | tv_renamer/tv_renamer.py:144-206 | the folder loop gives each listed folder its pass and is positive exactly when a listed folder is numbered |
| Renamer.Library.Renumber | tv_renamer/tv_renamer.py:142-207 | `add_numbering` / `replace_absolute` on a root: the root's names stay, every folder turns into its listing after one pass, and the result is true exactly when some numbered folder holds a numbered file |
| Renamer.Library.Directories | tv_renamer/tv_renamer.py:75-79 | `get_content(root, directories = True)`: the root's folder entries, sorted as `list.sort()` sorts them |
| Renamer.DirectoriesSpec | tv_renamer/tv_renamer.py:75-79 | `get_content(root, True)` lists every folder of the root exactly once |
| Renamer.FoldersIn | tv_renamer/tv_renamer.py:75 | the `os.path.isdir` filter of the root listing: the entries that are folders, in listing order |
| Renamer.FoldersInSpec | tv_renamer/tv_renamer.py:75 | the directory filter keeps exactly the entries that are folders, and keeps them distinct |
| Renamer.Dispatch | tv_renamer/tv_renamer.py:304-309 | "preserve" chooses `add_numbering`; otherwise `replace_absolute` with two episodes per file exactly when "doubleep" is set, and one otherwise |
| Renamer.Run | tv_renamer/tv_renamer.py:302-309 | every root path gets the pass the options choose: roots keep their names and folders, a root listed once is renumbered as one pass describes, and with "noact" nothing changes |

## Left out

- Printing (the `print` option, `tv_renamer.py:202-203` and `:288-289`) produces no state, so it is not modelled.
- Reading `sys.argv` is not modelled: `LoadArguments` takes the argument vector as a parameter. The `action` key it stores (`:40-41`) is never read, so it is left out.
- Failures of the operating system are not modelled: an unreadable path, a failed rename, a collision with a directory, a rename across devices. A rename whose source is absent leaves the listing unchanged, where `os.rename` raises `FileNotFoundError`. A file renamed onto a folder's name replaces the folder, where `os.rename` fails.
- Path strings are not modelled. Roots are `Library` objects, one per configured path, and `parent_path + name` is the pair of a root and an entry.
- `re.findall('\d+')` matches Unicode decimal digits. The model recognises only the ASCII digits `0`-`9`.
- `replace_absolute` with zero episodes per file is excluded: it would use `newname` before it is set. `main` passes only 1 or 2.
- The per-file interleaving of computing a name and renaming it is modelled as the whole plan first, then its renames in order. The file list is read once before the loop, so the renames cannot change the names the loop computes.
- Each folder's listing is read from the root's `folders` map, which stands for the disk that `get_content` lists.
- A rename to the empty name is not refused. `os.rename(parent + name, parent + "")` fails in the source. `Renamer.Library.ReplaceSubstring` still states that the names stay distinct, and that the root stays a valid listing whenever no visible name becomes empty.
- The default arguments of the functions are not modelled. `replace_ss`'s `old = " "` and `new = "_"` (`:82`) are parameters of `Renamer.Library.ReplaceSubstring`. `add_numbering`'s `episode_per_file` (`:106`) is never read, so `Renamer.Mode.Preserve` carries no count.
- Renamer.Run: the configured roots are assumed to be pairwise disjoint directories, one `Library` object each. Nested roots, such as `-paths:/tv,,/tv/Season 1`, are not modelled: there the pass over `/tv/` already renames the digit-bearing entries of `/tv/Season 1/`, its sub-folders included, before that root's own turn. Two spellings of one directory are not modelled either. The per-root renumbering is stated only for a root object that occurs once in the list. A root listed twice is processed twice, and only its invariants are stated.
