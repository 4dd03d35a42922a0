# Decision logic of the three custom agent tools

This project models, in Dafny, the three tools of `tools.py` that carry
logic of their own. The rest of the file wraps stock framework tools.

- **YouTube transcript** (`YouTubeTranscriptTool.forward`). It finds a video
  id in a watch URL with `re.search(r"v=([A-Za-z0-9_-]+)", url)`. It fetches
  the caption segments for that id and joins their `text` fields with single
  spaces. A URL without a match gives `"Invalid YouTube URL."`. A failed fetch
  gives `"Error fetching transcript: <e>"`.
- **Whisper transcription** (`WhisperTranscriptionTool.forward`). A path that
  is not a regular file gives `"File not found: <path>"`, and the service is
  never called for it. Otherwise the tool returns the response's `text`
  field, or `""` when that field is absent. A failure gives
  `"Whisper error: <e>"`.
- **File reader** (`FileTool.forward`). A path that does not exist gives
  `"File not found: <path>"`. Otherwise the suffix of the path's last
  component is lower-cased and picks one of four branches: CSV, Excel
  (`.xls`/`.xlsx`), JSON, or `"Unsupported file type: <ext>"`. An exception in
  a reader gives `"Error reading <path>: <e>"`.

Each tool is a total function to `string` over an abstract environment:

- The file system is a `map` from path strings to an entry kind: regular
  file, directory or other.
- Every foreign call is a function from its argument to an `Outcome`: a
  returned value, or the text of the exception it raised. The foreign calls
  are the transcript API, the transcription service and the pandas/json
  readers.

Files:

- `environment.dfy`: module `Environment`. `Option`, `Outcome`, the file
  system, `Exists` (`Path.exists`) and `IsFile` (`os.path.isfile`).
- `strings.dfy`: module `Strings`. Python's `str.join`, `str.split`,
  `str.rfind` and `str.lower`, with the join/split round trips.
- `paths.dfy`: module `Paths`. `PurePosixPath.name` and `PurePath.suffix`.
- `youtube_transcript.dfy`, `whisper_transcription.dfy`, `file_tool.dfy`:
  one module per tool.

Three behaviours of the source are easy to miss; the model follows the source each time:

- The Whisper tool checks `os.path.isfile`, not mere existence, so a
  directory is "not found" for it. `FileTool` checks `Path.exists`, so a
  directory passes that check. It then gets the unsupported-type message,
  or, when its name carries a supported suffix, is handed to that reader;
  the model leaves that reader's outcome abstract.
- The unsupported-type message carries the lower-cased suffix (`.TXT` is
  reported as `.txt`).
- A caption segment without a `text` key raises `KeyError` inside the `try`.
  The result is then `"Error fetching transcript: 'text'"`.

## Model

| member | source | states |
|---|---|---|
| YouTubeTranscriptTool.RunEnd | tools.py:81 | the greedy `+`: the run from `j` holds only `[A-Za-z0-9_-]` characters and ends at the end of the URL or at a character outside the class |
| YouTubeTranscriptTool.SearchFrom | tools.py:81 | the unanchored scan: it gives the first position at or after `from` where "v=" is followed by an id character, and `None` exactly when no position qualifies |
| YouTubeTranscriptTool.Search | tools.py:81-83 | `re.search` finds no match iff no "v=" in the URL is followed by an id character; a match it finds is leftmost, starts with "v=" and has a maximal id run |
| YouTubeTranscriptTool.SearchResultUnique | tools.py:81 | leftmost-and-maximal determines the match: any span with those properties is the one `Search` returns |
| YouTubeTranscriptTool.ExtractId | tools.py:81-84 | no id iff no qualifying "v="; an id is non-empty, uses only `[A-Za-z0-9_-]`, and is the group of the leftmost maximal match, whatever precedes its "v=" |
| YouTubeTranscriptTool.IdAfterFirstV | tools.py:81-84 | for any URL with no 'v' before its first "v=", the id is the whole run of id characters after it, with anything after the run ignored |
| YouTubeTranscriptTool.WatchUrlId | testing.py:70 | `https://www.youtube.com/watch?v=dQw4w9WgXcQ` gives the id `dQw4w9WgXcQ` |
| YouTubeTranscriptTool.LeftmostOccurrenceWins | tools.py:81 | in `?dev=ab&v=cd` the "v=" inside `dev=` comes first, so the id is `ab` |
| YouTubeTranscriptTool.EmptyRunSkipped | tools.py:81 | a "v=" with no id character after it is skipped, and the id stops at the first character outside the class (`v=&v=x.y` gives `x`) |
| YouTubeTranscriptTool.NoIdAfterV | tools.py:81-83 | a URL ending in "v=" has no id |
| YouTubeTranscriptTool.Texts | tools.py:87 | `seg["text"] for seg in transcript`: one text per segment, the k-th being the `text` of the k-th segment, defined only when every segment has one |
| YouTubeTranscriptTool.Forward | tools.py:80-89 | no id gives exactly `"Invalid YouTube URL."` and the fetch result plays no part; a raised fetch gives `"Error fetching transcript: " + msg`; a segment without `text` gives `"Error fetching transcript: 'text'"`; otherwise the texts joined by single spaces |
| YouTubeTranscriptTool.TranscriptLength | tools.py:87 | no segments give `""`, one segment gives its text, and n segments give the sum of their lengths plus n - 1 |
| YouTubeTranscriptTool.TranscriptKeepsSegments | tools.py:87 | when no segment text holds a space, splitting the transcript on spaces gives back every segment text in its original order |
| Strings.Join | tools.py:87 | `" ".join`: nothing joins to `""`, and otherwise the first part starts the result (its partners are `JoinLength`, `SplitJoin` and `JoinSplit`) |
| Strings.JoinLength | tools.py:87 | `" ".join` of nothing is `""`, of one part is that part, and is as long as the parts plus one separator between neighbours |
| Strings.Split | tools.py:137 | `str.split` gives at least one piece and no piece holds the separator |
| Strings.SplitJoin | tools.py:87 | splitting a join on the separator gives back the parts when none of them holds the separator |
| Strings.JoinSplit | tools.py:87 | joining the pieces of a split gives back the original string |
| Strings.LastIndexOf | tools.py:140 | `rfind` finds nothing iff the character is absent; otherwise the position holds the character and no later one does |
| Strings.Lower | tools.py:140 | `ext.lower()`: same length, no upper-case ASCII letter left, and it differs from the input only in letter case |
| Strings.LowerEqualsIff | tools.py:140-148 | comparing `ext.lower()` with a lower-case literal is comparing `ext` with it while ignoring letter case |
| Paths.LastNamed | tools.py:137-140 | pathlib's last part after `""` and `"."` parts are dropped: `""` iff every part is `""` or `"."`, and otherwise some part `k` such that every later part is `""` or `"."`; never holds '/', never `"."` |
| Paths.Name | tools.py:137-140 | `Path.name` holds no '/' and is never "."; it is empty iff every component is empty or "." |
| Paths.NameOfFileName | tools.py:137-140 | a plain file name is its own `Path.name` |
| Paths.NameInDirectory | tools.py:137-140 | `Path.name` is the part after the last '/', whatever the directory part |
| Paths.NameIgnoresTrailingSlash | tools.py:137-140 | a trailing '/' does not change `Path.name` |
| Paths.Suffix | tools.py:140 | `Path.suffix` is `""` without a dot or with only a leading dot, and otherwise the text from the last dot on; a name ending in '.' is not constrained |
| FileTool.PathSuffix | tools.py:137-140 | `Path(file_path).suffix`: empty, or starting with '.' and holding no '/' |
| FileTool.BranchFor | tools.py:140-152 | CSV branch iff the suffix equals `.csv` ignoring case, Excel iff `.xls` or `.xlsx` ignoring case, JSON iff `.json` ignoring case, otherwise unsupported |
| FileTool.Forward | tools.py:136-154 | a missing path gives exactly `"File not found: " + path`, whatever its suffix and before any reader is consulted; an unsupported suffix gives `"Unsupported file type: "` plus the lower-cased suffix; a branch's reader output is returned as is, and its exception becomes `"Error reading " + path + ": " + msg` |
| FileTool.Report | tools.py:141-154 | the `try`/`except` around a reader: returned text passes through unchanged, and an exception becomes `"Error reading " + path + ": " + msg` |
| FileTool.BranchIgnoresCase | tools.py:140-148 | two suffixes that differ only in letter case take the same branch, so the dispatch is case-insensitive |
| FileTool.SuffixAfterStem | tools.py:137-140 | for `dir/stem.ext` with a dot-free stem, the suffix the dispatch sees is `.ext` |
| FileTool.CsvNameIsRead | tools.py:137-144 | an existing file named `stem.csv` (dot-free stem) takes the CSV branch and returns what the CSV reader returns |
| FileTool.CsvFileIsRead | testing.py:90-94 | an existing `test.csv` takes the CSV branch and returns what the CSV reader returns |
| FileTool.UnsupportedSuffixReported | tools.py:140-152 | an existing `dir/stem.TXT` gives exactly `"Unsupported file type: .txt"` |
| FileTool.HiddenFileUnsupported | tools.py:140-152 | the name `.csv` has no suffix (its only dot is leading), so it gives `"Unsupported file type: "` |
| FileTool.DirectoryWithoutSuffix | tools.py:137-152 | an existing directory named `data` passes the existence check and, having no suffix, gets `"Unsupported file type: "` whatever the readers do |
| Environment.Exists | tools.py:137-138 | `Path(file_path).exists()`: true for any kind of entry at the path, whether regular file, directory or other |
| Environment.IsFile | tools.py:108 | `os.path.isfile`: true only for a regular file, and a regular file always exists |
| WhisperTranscriptionTool.Forward | tools.py:107-115 | a path that is not a regular file gives exactly `"File not found: " + path`; a raised call gives `"Whisper error: " + msg`; otherwise the response's `text` field, or `""` when it has none |
| WhisperTranscriptionTool.MissingFileIgnoresService | tools.py:108-109 | for a path that is not a regular file, every transcription service gives the same answer: the service is not consulted |
| WhisperTranscriptionTool.DirectoryIsNotFound | tools.py:108-109 | a directory exists, yet this tool reports it as not found |
| WhisperTranscriptionTool.MissingSampleFile | tools.py:108-109 | an absent `sample_long.mp3` (the file name the smoke script uses) gives exactly `"File not found: sample_long.mp3"` |

## Left out

- FileTool.Forward: a reader handed a directory (an existing path with a supported suffix) may return a value in the model; in the source, `pd.read_csv`, `pd.read_excel` and `Path.read_text` always raise on a directory, because the readers see only the path string and not the file system.
- The stock framework tools (`PythonInterpreterTool`, `DuckDuckGoSearchTool`, `GoogleSearchTool`, `VisitWebpageTool`, `SpeechToTextTool`, `FinalAnswerTool`, `UserInputTool`): they only get a new description string, and their behaviour lives in a library that is not part of this model.
- The `TOOLS` list, the module-level tool instances and the `name`, `description`, `inputs` and `output_type` attributes: static configuration with no behaviour.
- pandas `read_csv`, `read_excel` and `to_csv`, `json.loads` and `json.dumps`, `YouTubeTranscriptApi.get_transcript` and `openai.Audio.transcribe`: foreign calls. Each is an abstract function from its argument to a returned value or a raised message. No CSV or JSON round trip is claimed, because it would depend on those libraries.
- The file system and file opening: a map from path strings to entry kinds. Path normalisation done by the operating system, symbolic links and permission errors are not modelled. An `open` that fails is one of the raised outcomes of the foreign call.
- The text of an exception (`str(e)`) is taken as given. The one exception text the model fixes is that of the `KeyError` for a segment without `text`.
- A segment `text` that is not a string (a `TypeError` in `join`), and a response `text` field that is not a string: values are modelled as strings only.
- Paths.Name: POSIX paths only. Windows drives and backslash separators are not modelled.
- Paths.Suffix: a final component that ends in '.' gets `""` in the body, as in the long-standing pathlib rule. The contract leaves this case open because the behaviour depends on the Python version.
- Strings.Lower: ASCII case mapping only. Python's full Unicode `str.lower` is not modelled. No ASCII suffix is affected.
- deneme.py: a one-off HTTP probe of a remote API, network I/O only.
- testing.py: a manual smoke script that prints results. Only the inputs it uses appear here, as example lemmas.
