# Submission packaging and Slack channel provisioning, modelled in Dafny

This project models the logic of two maintenance scripts and proves what they promise.

**Packaging (`ithenticate/zipping.py`).** The script takes the compressed PDF submissions it found, each with a path and a byte size. It orders them by path, descending. One pass then groups them greedily: before a file is added, a non-empty current group is closed when the file would push its total past `MAX_ZIP_SIZE` (190 MiB). Group *i* (counting from 1) is written to `zipped/submissions_<i>.zip`, and every member is stored under the basename of its path.

This is modelled in module `Zipping`, with Python's string order in `Lexicographic` and `os.path.basename`/`os.path.join` in `Paths`:

- The sort is a function (`SortByPathDesc`). It is proved sorted and a permutation of its input, and it is the only such ordering when paths are distinct.
- The grouping loop is a method (`GroupFiles`). Its loop invariants tie it to a fold, `Scan`/`Pack`, over the sorted list.
- About `Pack`, the model proves that it:
  - partitions the list in order;
  - has no empty group;
  - keeps every group within the limit or to a single file;
  - is greedy (each group could not take the first file of the next one).
- These four properties determine `Pack` completely (`PackUnique`).
- Archive naming is a method with nested loops (`PlanArchives`). It yields, for each group, the archive path and the (source, arcname) pairs that the ZIP writer receives.

**Channel provisioning (`slack/create_channel.py`).** For every row of an assignment table, the script:

1. parses the `Members` cell (split on commas, each piece stripped);
2. creates a private channel, invites the members, and has the bot leave;
3. records five values in the parallel lists of `log_data`, whether the row succeeded or not.

At the end it prints how many rows were processed, how many succeeded and how many failed. The run is named after the CSV file: `basename(path.replace('.csv', ''))`.

This is modelled in modules `MemberList` and `ChannelProvisioning`:

- What each Slack call answered is input data (`Replies`). Per row, `RowOutcome` is the specification and `ProcessRow` is the method that mirrors the try block and its two handlers.
- `log_data` is the class `LogData`, with five sequence fields that `Record` appends to.
- The row loop is `ProvisionChannels`, and the summary is `Summarize`.

The comment at `ithenticate/zipping.py:16` (`Group files by size`) suggests a size order. Line 14 sorts by path (`key=lambda x: x[0]`), and the model follows the code. With sizes `a=6, b=5, c=4, d=1` and a limit of 10, size order would give `[[a], [b, c, d]]`. The code gives `[[d, c, b], [a]]`, which `Zipping.PathOrderExample` proves.

## Model

| member | source | states |
|---|---|---|
| Lexicographic.LessEq | ithenticate/zipping.py:14 | Python's `<=` on strings, for the prefix cases: a prefix is `<=` any extension of it, and a longer string is never `<=` its own proper prefix (the first differing code point decides the rest, as FirstDifference states) |
| Lexicographic.FirstDifference | ithenticate/zipping.py:14 | where two strings first differ at a position inside both, `a <= b` holds exactly when `a`'s code point there is smaller; with LessEq's two prefix cases this fixes the order on every pair of strings |
| Lexicographic.Reflexive | ithenticate/zipping.py:14 | every path compares `<=` to itself under Python's string order |
| Lexicographic.Total | ithenticate/zipping.py:14 | any two paths are comparable, so the sort key is a total order |
| Lexicographic.Antisymmetric | ithenticate/zipping.py:14 | two paths each `<=` the other are equal |
| Lexicographic.Transitive | ithenticate/zipping.py:14 | the string order is transitive |
| Paths.Basename | ithenticate/zipping.py:37 | the basename never contains a separator |
| Paths.Join | ithenticate/zipping.py:34 | `os.path.join(a, b)` always ends with `b`; an absolute `b` is the whole result, and otherwise the result starts with `a` |
| Paths.BasenameIsLastComponent | ithenticate/zipping.py:37 | the basename is a suffix of the path that is either the whole path or what follows its last separator |
| Paths.BasenameAfterSeparator | slack/create_channel.py:80 | a separator-free name after a directory prefix ending in a separator is its own basename |
| Paths.BasenameOfJoin | ithenticate/zipping.py:34-37 | joining a directory with a plain file name and taking the basename gives the file name back |
| Zipping.Insert | ithenticate/zipping.py:14 | inserting a record into a list sorted by path, descending, keeps it sorted and adds exactly that record |
| Zipping.SortByPathDesc | ithenticate/zipping.py:14 | the list to group is ordered by path, descending, and is a permutation of the enumerated files |
| Zipping.SortedPermutationsAgree | ithenticate/zipping.py:14 | two path-descending orderings of the same records with distinct paths are identical |
| Zipping.SortUnique | ithenticate/zipping.py:14 | with distinct paths, any path-descending permutation of the files is the sorted list |
| Zipping.TotalSize | ithenticate/zipping.py:19-27 | the running `current_size` of a group is at least the size of each of its files |
| Zipping.Step | ithenticate/zipping.py:22-27 | one iteration always ends the current group with the file, never changes a group already emitted, and emits at most one group |
| Zipping.Scan | ithenticate/zipping.py:17-27 | after the loop has visited a non-empty list, the current group ends with its last file, and there are no more groups than files |
| Zipping.Pack | ithenticate/zipping.py:17-30 | the script emits at most one group per file |
| Zipping.StepKeepsInvariant | ithenticate/zipping.py:21-27 | one loop iteration keeps the groups a greedy in-limit partition of the files seen so far |
| Zipping.ScanKeepsInvariant | ithenticate/zipping.py:17-27 | after any prefix of the list, the loop state is a greedy in-limit partition of that prefix |
| Zipping.PackPartitions | ithenticate/zipping.py:21-30 | concatenating the emitted groups in order gives exactly the sorted list: nothing lost, duplicated or reordered |
| Zipping.PackNonEmpty | ithenticate/zipping.py:22-30 | no emitted group is empty, and there are no groups exactly when there are no files |
| Zipping.PackWithinLimit | ithenticate/zipping.py:22-27 | every group's total size is within the limit, unless the group is a single oversized file |
| Zipping.PackIsGreedy | ithenticate/zipping.py:22 | for consecutive groups, the first group's total plus the first size of the next exceeds the limit |
| Zipping.ScanAtGroupStart | ithenticate/zipping.py:22-26 | a file that the last emitted group cannot take starts a new current group after the groups so far |
| Zipping.ScanFillsGroup | ithenticate/zipping.py:21-27 | once a fitting group has been started, the loop adds its remaining files to the same group |
| Zipping.PackUnique | ithenticate/zipping.py:17-30 | any partition into non-empty, fitting, greedy groups is the one the loop emits |
| Zipping.PathOrderExample | ithenticate/zipping.py:14-30 | sizes 6, 5, 4, 1 at paths a, b, c, d under a limit of 10 group as [d, c, b], [a], because the order is by path |
| Zipping.OversizedSingletonExample | ithenticate/zipping.py:22-30 | a lone file larger than the limit still gets a group of its own |
| Zipping.GroupFiles | ithenticate/zipping.py:17-30 | the loop, with `current_size` kept equal to the total of `current_group`, emits the paths of Pack's groups |
| Zipping.DecimalString | ithenticate/zipping.py:34 | the group number is written as decimal digits with no leading zero, and those digits denote the number itself |
| Zipping.DecimalStringInjective | ithenticate/zipping.py:34 | different group numbers give different digit strings |
| Zipping.ArchivePath | ithenticate/zipping.py:34 | archive i is `zipped/submissions_<i>.zip` |
| Zipping.ArchivePathsDistinct | ithenticate/zipping.py:33-35 | different groups are written to different archives, so none is overwritten |
| Zipping.PlanArchives | ithenticate/zipping.py:33-37 | one archive per group, the i-th (from 1) at ArchivePath(i), whose members are the group's files in order, each stored under its basename |
| Zipping.PackageSubmissions | ithenticate/zipping.py:14-37 | the whole script: archive k holds, in order, the files of the k-th group of the path-sorted list under the size limit |
| Zipping.PackagedFilesArePermutation | ithenticate/zipping.py:14-30 | the files placed in the archives are exactly the enumerated files, each once |
| MemberList.IsSpace | slack/create_channel.py:100 | the characters `str.strip()` removes include space, tab, newline and carriage return, and never a comma, an ASCII letter or a digit, so member identifiers are left whole |
| MemberList.Split | slack/create_channel.py:100 | splitting on commas gives one more piece than there are commas, and no piece holds a comma |
| MemberList.JoinSplit | slack/create_channel.py:100 | joining the pieces with commas rebuilds the cell, so splitting loses nothing |
| MemberList.SplitJoin | slack/create_channel.py:100 | comma-free pieces joined with commas split back into the same pieces |
| MemberList.Strip | slack/create_channel.py:100 | a stripped piece neither starts nor ends with whitespace |
| MemberList.StripIsInfix | slack/create_channel.py:100 | stripping keeps a contiguous part of the piece and removes only whitespace on either side |
| MemberList.StripPadded | slack/create_channel.py:100 | stripping removes exactly the whitespace padding around a stripped core |
| MemberList.Members | slack/create_channel.py:100 | the member list has one more entry than the cell has commas, and each entry is stripped and comma-free |
| MemberList.MembersOfCell | slack/create_channel.py:100 | a cell of comma-separated pieces parses to those pieces stripped |
| MemberList.MembersExample | slack/create_channel.py:100 | the cell `U1, U2,U3` gives the members U1, U2 and U3 |
| ChannelProvisioning.ErrorMessage | slack/create_channel.py:126-130 | a Slack API failure is recorded with the "Slack API Error: " prefix and any other exception with "Unexpected error: ", each exactly when that kind of failure occurred |
| ChannelProvisioning.ErrorMessageInjective | slack/create_channel.py:126-130 | the recorded message determines the failure |
| ChannelProvisioning.FirstFailure | slack/create_channel.py:106-131 | the exception that ends the try block is that of the first call to fail (create, then invite, then leave), and there is none exactly when all three succeeded |
| ChannelProvisioning.RowOutcome | slack/create_channel.py:102-131 | Success holds exactly when create, invite and leave all succeeded, with no Error; otherwise Error is a non-empty message with one of the two prefixes; Channel_ID is absent exactly when creation failed and is the created id otherwise |
| ChannelProvisioning.CreateFailureStopsRow | slack/create_channel.py:106-112 | when creation fails, the invite and leave answers do not affect the row, whose error is the creation's |
| ChannelProvisioning.InviteFailureKeepsChannel | slack/create_channel.py:112-118 | when the invite fails after creation, the row fails with the invite's error and still records the channel id |
| ChannelProvisioning.LeaveFailureKeepsChannel | slack/create_channel.py:121-131 | when only the leave fails, the row fails with its error and still records the channel id |
| ChannelProvisioning.ProcessRow | slack/create_channel.py:102-131 | the locals `channel_id`, `success` and `error_msg` end as RowOutcome says |
| ChannelProvisioning.LogData.constructor | slack/create_channel.py:89-95 | the log starts as five empty lists |
| ChannelProvisioning.LogData.Record | slack/create_channel.py:133-138 | one value is appended to each of the five lists, which keep equal lengths |
| ChannelProvisioning.SuccessColumn | slack/create_channel.py:137 | the Success column has as many true entries as there are rows whose create, invite and leave calls all succeeded |
| ChannelProvisioning.ProvisionChannels | slack/create_channel.py:97-138 | every row is visited whatever happened before it; the log holds one entry per row, the k-th being RowOutcome of row k |
| ChannelProvisioning.CountTrue | slack/create_channel.py:151 | the number of successes never exceeds the number of rows; it equals the number of rows exactly when every row succeeded, and is zero exactly when none did |
| ChannelProvisioning.Summarize | slack/create_channel.py:150-152 | total is the number of rows, successful is at most total, and failed is total minus successful, which is the number of failed rows |
| ChannelProvisioning.CountsAddUp | slack/create_channel.py:150-152 | successes and failures together count every row |
| ChannelProvisioning.SummaryOfRun | slack/create_channel.py:150-152 | the summary counts every row once and counts as successful exactly the rows whose three calls all succeeded |
| ChannelProvisioning.RemoveCsv | slack/create_channel.py:80 | removing ".csv" never lengthens the path |
| ChannelProvisioning.CsvName | slack/create_channel.py:80 | the run name holds no separator |
| ChannelProvisioning.RemoveCsvNoop | slack/create_channel.py:80 | a path without ".csv" is left unchanged |
| ChannelProvisioning.RemoveCsvAround | slack/create_channel.py:80 | an occurrence of ".csv" is removed and the two sides are treated independently, since no match can straddle it |
| ChannelProvisioning.RemoveCsvAroundChar | slack/create_channel.py:80 | a character outside ".csv" splits the path into independently treated halves |
| ChannelProvisioning.CsvNameOfPath | slack/create_channel.py:80 | for `dir/stem.csv` with no other ".csv" and no separator in the stem, the run name is the stem |
| ChannelProvisioning.CreateChannels | slack/create_channel.py:80-152 | the run's name, a log with RowOutcome for every row, and a summary of every row with the all-succeeded rows as successes |

## Left out

- `ithenticate/compress_pdfs.py` is not part of this model. It only runs Ghostscript on each file, with no logic of its own.
- Filesystem and archive I/O in `zipping.py` are represented by data:
  - `glob` and `getsize` (line 13) become the input list of (path, size) records;
  - `makedirs` (line 10) is omitted;
  - ZIP writing with DEFLATE (lines 35-38) becomes the list of archives and (source, arcname) members that would be written;
  - the progress `print`s (lines 39, 41) are omitted.
- Paths are POSIX: `os.path.join` and `os.path.basename` use `/` only.
- Paths and cells are sequences of Unicode scalar values. Python represents undecodable filename bytes from `glob` as lone surrogates (U+DC80 to U+DCFF), which have no counterpart here, so such paths are outside the model.
- The Slack calls (lines 108-121) are inputs: each row carries the answer each call would give. `str(e)` and `e.response['error']` are taken as given strings. Network behaviour, retries and the real API's responses are not modelled.
- Logging and configuration plumbing is not modelled: `get_logger`, argparse, dotenv, the token and file-existence checks (lines 20-78), and the `logger` calls.
- Pandas CSV reading and writing (lines 85, 144-146) and `tqdm` are not modelled.
- The rate-limit sleep (line 141) is floating-point timing and has no effect on the outcome.
- The summary `print`s (lines 154-158) are represented by the `Summary` value instead.
- MemberList.Members: a missing `Members` cell would be read by pandas as a float NaN. Its `.split` then raises at line 100, outside the try block, and ends the run. The model takes every cell as a string.
- MemberList.Strip: whitespace is the fixed set of code points Python's `str.isspace` accepts. Unicode database changes are not modelled.
- Zipping.SortByPathDesc: the sort's stability carries no contract of its own. `Insert` places a record before records with equal paths that came after it in the input, as Python's stable sort with `reverse=True` does. Uniqueness (`SortUnique`) is proved only for distinct paths, which a directory listing always has.
- Zipping.GroupFiles: Python's unbounded integers are modelled as `nat`, so no overflow exists to model.
