# UVCP packers

A model of the packers for UVCP ("Unified Voice Cloning Package") files.
A UVCP file is one compressed archive. It bundles voice-model weights with their
optional search indexes.

- The **multi-model packer** (`uvcp.py`) takes the uploaded `.pth` weights files and sorts their paths.
  - It numbers the files 0, 1, 2, ... as speaker IDs.
  - It pairs each file with the `.index` file of the same stem. A stem is the file name without its last suffix.
  - It stops at the first file that is missing or does not load.
  - It writes a *multi-form* container `{"models": {id: {"model_state", "index_data"?}}}` through Zstandard.
- The **single-model packers** (`uvcp-gzip-compression.py`, `uvcp-lz4-compression.py`) take one weights file and an optional index file.
  - They write a *single-form* container `{"model_state", "index_data"?}` through gzip or LZ4 frames.
- The **lz4 loader** reads such a file back. It tells the two container forms apart only by which keys are present.

The model works on values:

- The file system is the set of existing paths.
- The weight and index loaders are arbitrary functions, and `None` stands for a loader that raised.
- Every packer returns an `Outcome`: `Failed(error)`, or `Written(dest, archive)` with the archive it writes.
  - An archive exists only on success, so a failed run writes nothing.
- `Report` gives the status line for an outcome, as the Python code formats it.

Each packer has two parts:

- A reference function: `PackMulti` in `uvcp.dfy`, and `PackSingle` with the codec as a parameter in `single.dfy`.
- Methods that follow the Python step by step: `CreateUvcp` and `RunCreateUvcpScript` in each of `uvcp.dfy`, `uvcp_gzip.dfy` and `uvcp_lz4.dfy`. Each method is proved equal to its reference function.
  - `CreateUvcp` in `uvcp.dfy` carries the loop over the weights files, with its invariant.

`paths.dfy` models `pathlib`'s `name` and `stem` for POSIX paths, and `/`. `ordering.dfy` models Python's `sorted` on strings.

Three behaviours of the code are worth stating up front:

- `load_uvcp_fast` is one `try` around everything. An index buffer that fails to deserialise therefore gives the error pair, and the weights are lost with it.
- The comprehension at `uvcp.py:85` keeps the last index file per stem, so a later index file with the same stem silently replaces an earlier one.
- The wrapper sorts full upload paths, not file names (see Findings).

## Model

| member | source | states |
|---|---|---|
| UvcpTypes.BlankAsNone | tabs/utilities/uvcp/uvcp.py:22 | a blank or missing output path becomes absent, and a present result is the given non-empty path |
| UvcpTypes.Decimal | tabs/utilities/uvcp/uvcp.py:134 | the model count is printed as a non-empty string of decimal digits without a leading zero, and that numeral denotes the count |
| UvcpTypes.Report | tabs/utilities/uvcp/uvcp.py:90-136 | the status line of each outcome, as the f-strings format it; its meaning is stated by ReportTellsSuccess, ReportEndsWithPath and PackMultiReport |
| UvcpTypes.ReportTellsSuccess | tabs/utilities/uvcp/uvcp.py:134-136 | the status line starts with "Successfully created UVCP file" exactly when an archive was written |
| UvcpTypes.ReportEndsWithPath | tabs/utilities/uvcp/uvcp.py:89-106 | a success line ends with the destination; a missing-file error ends with the missing path |
| PathNames.Name | tabs/utilities/uvcp/uvcp.py:96 | the name of a path is a single component, holding no '/'; NameIsFinalComponent fixes which one |
| PathNames.TrimSlashesDropsSlashes | tabs/utilities/uvcp/uvcp.py:96 | dropping trailing slashes keeps a prefix that does not end in '/', followed only by slashes |
| PathNames.LastComponentIsFinal | tabs/utilities/uvcp/uvcp.py:96 | the last component is the end of the path, all of it or starting just after a '/' |
| PathNames.NameIsFinalComponent | tabs/utilities/uvcp/uvcp.py:96 | `Path(p).name` is the last '/'-free run of `p` once trailing slashes are dropped, which determines it uniquely (bare names and trailing slashes included) |
| PathNames.Stem | tabs/utilities/uvcp/uvcp.py:96 | the stem of a path holds no '/' |
| PathNames.LastDotIsLast | tabs/utilities/uvcp/uvcp.py:96 | the suffix search finds a '.' of the name, and no '.' comes after it |
| PathNames.StemIsNameWithoutSuffix | tabs/utilities/uvcp/uvcp.py:96 | the stem is a prefix of the name. It is shorter exactly when the name's last dot is strictly inside the name, and then it ends just before that dot |
| PathNames.NameOfJoin | tabs/utilities/uvcp/uvcp.py:128 | a single component joined under a directory is the name of the result |
| PathNames.StemOfJoinedName | tabs/utilities/uvcp/uvcp.py:126-128 | a file named `s.e` under a directory has stem `s` again: the stem undoes the default naming |
| Ordering.Below | tabs/utilities/uvcp/uvcp.py:18 | Python's `<=` on strings, by code point with a proper prefix first; BelowIsTotalOrder and BelowAtFirstDifference state its meaning |
| Ordering.BelowAtFirstDifference | tabs/utilities/uvcp/uvcp.py:18 | two strings compare by their first differing character after a common prefix |
| Ordering.BelowIsTotalOrder | tabs/utilities/uvcp/uvcp.py:18 | Python's `<=` on strings is total, antisymmetric and transitive |
| Ordering.SortBy | tabs/utilities/uvcp/uvcp.py:18 | sorting keeps exactly the given paths (same multiset and length) |
| Ordering.SortBySorted | tabs/utilities/uvcp/uvcp.py:18 | the sorted list is in ascending order |
| Ordering.SortedUnique | tabs/utilities/uvcp/uvcp.py:18 | two ascending arrangements of the same paths are equal, so any correct sort gives the list `sorted` gives |
| Ordering.SortByForgetsOrder | tabs/utilities/uvcp/uvcp.py:18 | lists holding the same paths in any order sort to the same list |
| Ordering.SortTwo | tabs/utilities/uvcp/uvcp.py:18 | two paths are swapped by sorting exactly when the first is not below the second |
| MultiPacker.LastWithStem | tabs/utilities/uvcp/uvcp.py:85 | finds the last index path with a given stem; no later path has that stem |
| MultiPacker.IndexByStem | tabs/utilities/uvcp/uvcp.py:85 | the stem-to-path dictionary comprehension; IndexByStemLastWins and IndexByStemKeys state its keys and values |
| MultiPacker.IndexByStemLastWins | tabs/utilities/uvcp/uvcp.py:85 | the stem dictionary has a key for each stem of an index path, mapped to the last path with that stem |
| MultiPacker.IndexByStemKeys | tabs/utilities/uvcp/uvcp.py:85 | a stem is a key exactly when some index path has it |
| MultiPacker.IndexByStemConcat | tabs/utilities/uvcp/uvcp.py:85 | the dictionary of two lists in a row is the first's overridden by the second's |
| MultiPacker.IndexByStemInsert | tabs/utilities/uvcp/uvcp.py:85 | inserting an index path changes the dictionary only under that path's stem |
| MultiPacker.EntryFor | tabs/utilities/uvcp/uvcp.py:89-111 | one loop pass succeeds exactly when the weights file exists and loads and, if its stem is a key, that index file exists and loads. The errors come in order: a missing weights file; a weights load that raises; a missing matched index, reported with the stem and the path; an index read that raises. A built entry holds the loaded weights, with index data exactly when its stem is a key, read from that key's path |
| MultiPacker.CollectEntries | tabs/utilities/uvcp/uvcp.py:88-111 | all files pass exactly when each does. Then entry i is file i's, and there are n entries. Otherwise the error is the first failing file's, and every file before it passed |
| MultiPacker.CollectEntriesStep | tabs/utilities/uvcp/uvcp.py:88-111 | one more passing file extends the entries by its entry |
| MultiPacker.NumberedSize | tabs/utilities/uvcp/uvcp.py:111 | n entries get n distinct speaker IDs |
| MultiPacker.NumberedSnoc | tabs/utilities/uvcp/uvcp.py:93-111 | the next entry is stored under the next speaker ID |
| MultiPacker.PackMulti | tabs/utilities/uvcp/uvcp.py:76-136 | the outcome of `create_uvcp`; the PackMulti lemmas below state what it promises, and CreateUvcp is proved equal to it |
| MultiPacker.PackMultiAssignsIds | tabs/utilities/uvcp/uvcp.py:88-113 | on success the archive is a Zstandard multi-form container. Its speaker IDs are exactly 0..n-1, and speaker i holds the weights loaded from the i-th path |
| MultiPacker.PackMultiEntry | tabs/utilities/uvcp/uvcp.py:93-111 | on success speaker i holds what the loop made of the i-th path |
| MultiPacker.PackMultiPairsIndexes | tabs/utilities/uvcp/uvcp.py:103-109 | speaker i has index data exactly when some index path shares its stem, read from the last such path |
| MultiPacker.PackMultiStopsAtFirstFailure | tabs/utilities/uvcp/uvcp.py:88-111 | if files before i pass and file i fails, the outcome is file i's error and nothing is written |
| MultiPacker.PackMultiStopsAfterPrefix | tabs/utilities/uvcp/uvcp.py:88-111 | the same, for a prefix whose entries were all collected |
| MultiPacker.PackMultiSucceedsIff | tabs/utilities/uvcp/uvcp.py:88-132 | a file is written exactly when every file and every matched index passes, and there is an output path or at least one weights file |
| MultiPacker.PackMultiDestination | tabs/utilities/uvcp/uvcp.py:116-128 | the output path is used as given. Otherwise the file is `<stem>_multi.uvcp` (several models) or `<stem>.uvcp` (one) in the logs directory, named after the first path, and its stem gives that name back |
| MultiPacker.PackMultiReport | tabs/utilities/uvcp/uvcp.py:134 | the success line reports one model per weights path |
| MultiPacker.CollectEntriesLooksUpOwnStems | tabs/utilities/uvcp/uvcp.py:103-104 | the loop consults the dictionary only under the weights files' own stems |
| MultiPacker.UnmatchedIndexIgnored | tabs/utilities/uvcp/uvcp.py:103 | an index file whose stem matches no weights file changes nothing, wherever it is inserted |
| MultiPacker.CreateUvcp | tabs/utilities/uvcp/uvcp.py:76-136 | the loop, early returns and destination choice give exactly the reference outcome; an empty list with no output path raises |
| MultiPacker.RunCreateUvcpScript | tabs/utilities/uvcp/uvcp.py:11-26 | an empty upload list is refused before packing; otherwise the paths are sorted as full strings and a blank output path is dropped |
| MultiPacker.UploadOrderDoesNotMatter | tabs/utilities/uvcp/uvcp.py:18 | uploads of the same paths in any order give the same outcome, and the speaker IDs follow ascending paths |
| MultiPacker.FullPathSortIgnoresFileNames | tabs/utilities/uvcp/uvcp.py:18 | the as-written sort gives speaker 0 to "b.pth" in `["/t/9/a.pth", "/t/1/b.pth"]` although "a.pth" < "b.pth" |
| MultiPacker.NameThenPathIsTotalOrder | tabs/utilities/uvcp/uvcp.py:37 | ordering by file name, then by full path, is a total order |
| MultiPacker.SpeakerIdsFollowFileNames | tabs/utilities/uvcp/uvcp.py:37 | with the corrected order, speaker IDs follow ascending file names and do not depend on upload order |
| MultiPacker.FileNameSortFixesExample | tabs/utilities/uvcp/uvcp.py:37 | the corrected order gives speaker 0 to "a.pth" in the example above |
| MultiPacker.RunCreateUvcpScriptByName | tabs/utilities/uvcp/uvcp.py:11-26 | the wrapper with the corrected sort key, otherwise as written |
| SinglePacker.PackSingle | tabs/utilities/uvcp/uvcp-gzip-compression.py:71-113 | the outcome of the single-model `create_uvcp` for a given codec; the PackSingle lemmas below state what it promises, and both CreateUvcp methods are proved equal to it |
| SinglePacker.PackSingleSucceedsIff | tabs/utilities/uvcp/uvcp-gzip-compression.py:73-113 | a file is written exactly when the weights file exists and loads and, when an index path is given, that file exists and loads |
| SinglePacker.PackSingleErrorOrder | tabs/utilities/uvcp/uvcp-gzip-compression.py:74-84 | a missing weights file is reported whatever the index. A missing given index file is reported next. A blank index path is never looked at |
| SinglePacker.PackSingleContainer | tabs/utilities/uvcp/uvcp-gzip-compression.py:78-87 | on success the container is single-form through the packer's codec. Its weights are the loaded ones. It has index data exactly when an index path was given, read from that path |
| SinglePacker.PackSingleDestination | tabs/utilities/uvcp/uvcp-gzip-compression.py:90-103 | the output path is used as given. Otherwise the file is `<stem>.uvcp` in the logs directory, and its stem gives the weights file's stem back |
| SinglePacker.PackSingleCodecOnly | tabs/utilities/uvcp/uvcp-lz4-compression.py:71-106 | the gzip and lz4 packers agree on errors, destination and container; only the codec differs |
| SinglePacker.PackSingleReport | tabs/utilities/uvcp/uvcp-gzip-compression.py:111 | a single-model success line names only the destination |
| GzipPacker.CreateUvcp | tabs/utilities/uvcp/uvcp-gzip-compression.py:71-113 | the early returns, the in-place addition of index data and the destination choice give exactly the reference outcome with gzip |
| GzipPacker.RunCreateUvcpScript | tabs/utilities/uvcp/uvcp-gzip-compression.py:11-26 | a missing weights upload is refused. A missing index upload is passed as absent, and a blank output path is dropped |
| Lz4Packer.CreateUvcp | tabs/utilities/uvcp/uvcp-lz4-compression.py:71-106 | the early returns, the in-place addition of index data and the destination choice give exactly the reference outcome with LZ4 |
| Lz4Packer.RunCreateUvcpScript | tabs/utilities/uvcp/uvcp-lz4-compression.py:11-26 | a missing weights upload is refused. A missing index upload is passed as absent, and a blank output path is dropped |
| Lz4Packer.LoadUvcpFast | tabs/utilities/uvcp/uvcp-lz4-compression.py:108-129 | `load_uvcp_fast` on the opened file; LoaderReadsKeys, PackThenLoad and LoaderRejectsOtherPackers state its meaning |
| Lz4Packer.LoaderReadsKeys | tabs/utilities/uvcp/uvcp-lz4-compression.py:108-129 | a file that is missing or not LZ4 gives the error pair. Otherwise the weights come back exactly for the single form, and an index exactly when the "index_data" key is present. Loading fails only when that buffer does not deserialise |
| Lz4Packer.PackThenLoad | tabs/utilities/uvcp/uvcp-lz4-compression.py:118-127 | what the lz4 packer writes loads back as the loaded weights, with the index exactly when an index path was given |
| Lz4Packer.LoaderRejectsOtherPackers | tabs/utilities/uvcp/uvcp-lz4-compression.py:113 | archives of the gzip and multi-model packers give the loader's error pair |

## Left out

- Tensor and index serialisation (`torch.load`, `torch.save`, `faiss.read_index`, `serialize_index`, `PyIOReader`) are foreign libraries. Each becomes an arbitrary function, and `None` stands for a call that raises.
- The Zstandard, gzip and LZ4 codecs are foreign byte-stream code. An archive records which codec it went through, and the loader refuses any codec but LZ4.
- `mmap=True` in `load_uvcp_fast` is a performance path. The model treats the load as succeeding whenever the file is an LZ4 archive.
- The file system is left out: `mkdir`, resolving the project root through `__file__`, and the file write itself. `logsDir` is a parameter, and the write is the returned archive.
- The text of caught exceptions and `traceback.format_exc()` depends on the runtime. Every caught exception is `Raised`, and `Report` gives only the fixed prefix of its line.
- The wrappers' own `except` branches ("An unexpected error occurred") are left out. Only reading `.name` of an upload could raise there, and uploads are modelled as their paths.
- `pathlib` normalisation (`.` components, doubled slashes, backslashes on Windows) is not modelled. Neither is the suffix rule of Python 3.14 and later, nor the `str(Path(output_path))` rendering of an output path; paths are POSIX strings.
- An `index_paths` argument of `None` is modelled as the empty list; both give the empty dictionary.
- The Gradio UI (`uvcp_tab`, components, click wiring) is left out.
- Ordering.SortBy: insertion sort stands in for Python's `sorted`. They agree on every input (SortedUnique), but the model says nothing about running time.

## Findings

| source | as written | input that shows it | evidently intended | confidence | as-written member | corrected member |
|---|---|---|---|---|---|---|
| tabs/utilities/uvcp/uvcp.py:18 | `sorted([f.name for f in pth_files])` sorts full upload paths. Each upload sits in its own temporary directory, so the directory decides speaker IDs before the file name | `["/t/9/a.pth", "/t/1/b.pth"]`: "b.pth" gets speaker 0 | speaker IDs follow the alphabetical order of the `.pth` file names (uvcp.py:37, uvcp.py:80) | medium, not executed | MultiPacker.FullPathSortIgnoresFileNames | MultiPacker.SpeakerIdsFollowFileNames |
