# Video download view: a Dafny model

This project models the download view of a small Django site. The view lists the
resolutions a video offers and downloads the chosen video-only stream and an audio stream
into a fresh temporary directory. It muxes the two into one MP4 with ffmpeg and returns the
result as a streaming attachment. The `try`/`finally` around that work removes the directory
again. Everything modelled comes from `downloads/views.py`.

Modules, one per file:

- `Wrappers` (`wrappers.dfy`): `Option` and `Result`.
- `Text` (`text.dfy`): Python's `str.isspace()` and `str.strip()`.
- `Decimal` (`decimal.dfy`): `int()` on base-10 text and `str()` on integers, with
  their round trip.
- `Ordering` (`ordering.dfy`): `sorted(..., reverse=True)` on a set of integers.
- `Resolutions` (`resolutions.dfy`): `get_video_resolutions`. This is the loop that
  collects `int(label.replace('p', ''))` into a set, followed by the sort. It also covers
  the `f'{r}p'` choices the form offers.
- `Chunked` (`chunked.dfy`): `stream_video`. An open file is a class with a read position.
  The generator loop over `f.read(8192)` is a method with loop invariants.
- `RangeHeader` (`range_header.dfy`): `re.compile(r'bytes\s*=\s*(\d*)-(\d*)').match`.
  It is a prefix match with greedy groups, scanned position by position over the header. It is proved sound and complete against a
  declarative description of what the pattern accepts.
- `Delivery` (`delivery.dfy`): the response object and lines 82-99. The response's status
  and header map are updated in place.
- `Naming` (`naming.dfy`): the output file name `ISAVER.CLICK_<5 hex digits>.mp4` and
  `os.path.join`.
- `Download` (`download.dfy`): lines 58-103. The file system is a class with a set of live
  directories and a map of files. `mkdtemp`, the downloads, the ffmpeg output, `getsize`
  and `rmtree` act on it. Each exception in the `try` block becomes a `Failure` value.

The view's inputs from outside are parameters:

- the streams pytube finds, and what their downloads save;
- the SHA-1 hex digest;
- the name `mkdtemp` picks;
- what running ffmpeg did: whether `subprocess.run` raised, the exit status, whether the
  captured output and error streams are valid UTF-8, and the file ffmpeg wrote;
- the `Range` request header.

The view sets out to do some things the code does not do. The model follows the code:

- **Partial content is never served.** Lines 86-95 are written to answer a
  `Range: bytes=<start>-<end>` request with `206 Partial Content` and a `Content-Range`
  header, as range requests work in section 14 of RFC 9110. In the code, `range_type` is
  the first group of the pattern, and that group holds only digits. So
  `range_type == 'bytes'` (downloads/views.py:90) never holds, and lines 91-95 cannot run.
  `RangeHeader.RangeTypeNeverBytes` proves this. In `Delivery.SetDeliveryHeaders` that
  branch is `assert false`. Every response is a `200` with the full `Content-Length` and no
  `Content-Range`.
- **A failed mux does not stop the view.** Lines 77-80 look like error handling for
  ffmpeg, but they only print. After a non-zero exit status the view goes on to `getsize`
  once the printed error output decodes as UTF-8; it then fails only when no output file
  exists.
- **Errors are not rendered.** The template is rendered only when the form is invalid or no
  resolution was posted. Every exception from the downloads, ffmpeg, the log decoding and `getsize`
  propagates, after the `finally` clause has run. The model returns these exceptions as
  `Failure` values.

## Model

| member | source | states |
|---|---|---|
| Text.LeadingSpaces | downloads/views.py:86 | the length of the longest all-whitespace prefix, the part `strip()` removes at the front |
| Text.Strip | downloads/views.py:86 | what `strip()` leaves is the stretch of the header that starts right after its leading whitespace |
| Text.StripEmpty | downloads/views.py:86 | `strip()` gives the empty string exactly when the header is all whitespace (or empty, as for a missing header) |
| Text.StripEnds | downloads/views.py:86 | what `strip()` leaves neither starts nor ends with whitespace |
| Text.StripPosition | downloads/views.py:86 | what `strip()` leaves is the stretch of the input after its leading whitespace, with only whitespace after it |
| Text.StripUnpadded | downloads/views.py:86 | `strip()` leaves a string without surrounding whitespace unchanged, removing nothing at either end |
| Decimal.NatToString | downloads/views.py:99 | `str(n)` for a size is canonical decimal (digits only, no leading zero) whose value is `n` |
| Decimal.CanonicalRoundTrip | downloads/views.py:99 | every canonical decimal spelling is `str` of its value |
| Decimal.NatToStringInjective | downloads/views.py:99 | different sizes give different `Content-Length` texts |
| Decimal.IntToString | downloads/views.py:49 | `str(i)` is the canonical spelling of a non-negative `i`, and `-` before the canonical spelling of the magnitude of a negative one |
| Decimal.ReadSigned | downloads/views.py:34 | what `int()` reads once the whitespace is gone: a bare digit string reads as its decimal value |
| Decimal.PaddingAround | downloads/views.py:34 | the whitespace `strip()` removes before and after the text surrounds exactly what it keeps |
| Decimal.ParseInt | downloads/views.py:34 | `int()` reads a digit string as its value, and raises on text that starts or ends with one of the information separators U+001C to U+001F, which `strip()` would remove but `int()` does not skip |
| Decimal.ReadEmpty | downloads/views.py:34 | `int('')` raises, so a label that is empty after `replace` cannot be read |
| Decimal.ReadCanonical | downloads/views.py:99 | `int()` reads the canonical spelling of a size back as that size |
| Decimal.ReadNegative | downloads/views.py:34 | `int()` reads `-` followed by digits as the negated value of the digits |
| Decimal.IntRoundTrip | downloads/views.py:34 | `int(str(i)) == i` for every integer |
| Decimal.IntToStringHasNoP | downloads/views.py:34 | `str(i)` contains no `p`, so `replace('p', '')` leaves it alone |
| Ordering.SortedDesc | downloads/views.py:36 | `sorted(list(s), reverse=True)` is strictly descending, holds exactly the members of `s`, and has one entry per member |
| Ordering.SortedDescHead | downloads/views.py:36 | the sorted list of a non-empty set starts with the set's largest element |
| Ordering.DescendingUnique | downloads/views.py:36 | two strictly descending lists with the same members are equal, so the sorted result is determined by the set |
| Resolutions.RemoveP | downloads/views.py:34 | `replace('p', '')` leaves no `p`, keeps every other character as often as it occurred, and keeps a string without `p` unchanged |
| Resolutions.RemovePAppend | downloads/views.py:34 | removing the `p`s of a concatenation removes them from each part, so the other characters keep their order |
| Resolutions.ParseLabel | downloads/views.py:34 | a label without `p` is read as `int()` reads it; a label made only of `p`s (nothing left after `replace`) cannot be read |
| Resolutions.LabelValues | downloads/views.py:31-34 | the value of every stream with a non-empty, readable label is in the collected set |
| Resolutions.LabelValuesMembers | downloads/views.py:31-34 | a value is collected exactly when some stream with a non-empty label reads as that value (complete and sound) |
| Resolutions.LabelValuesSize | downloads/views.py:31-34 | there are never more distinct resolutions than streams |
| Resolutions.NoLabelsNoResolutions | downloads/views.py:31-36 | streams whose label is `None` or empty contribute nothing; with no labelled streams the result is `[]` |
| Resolutions.PrefixStep | downloads/views.py:32-34 | one more stream adds its value to the set when labelled and readable, and nothing otherwise |
| Resolutions.AllParseSplit | downloads/views.py:32-34 | all labels are readable exactly when both parts of a split are |
| Resolutions.CollectResolutions | downloads/views.py:31-36 | the loop succeeds exactly when every labelled stream reads as an integer; the result is then the collected set sorted descending, with exactly its members; otherwise the error carries the first unreadable label in the streams' order |
| Resolutions.GetVideoResolutions | downloads/views.py:27-36 | the same, with each label read as `int(label.replace('p', ''))`; the `ValueError` quotes the first unreadable label after its `p`s are removed, as `int()` received it |
| Resolutions.ChoiceLabel | downloads/views.py:49 | the choice `f'{r}p'` ends in its only `p` |
| Resolutions.ChoiceLabelRoundTrip | downloads/views.py:34-49 | the choice `f'{r}p'` offered for a resolution reads back as `r` |
| Resolutions.CollectRoundTrip | downloads/views.py:31-36 | labels reading as the entries of a strictly descending list are collected and sorted back into that list |
| Resolutions.ChoicesRoundTrip | downloads/views.py:36-49 | reading the offered choices as stream labels gives back the resolution list they came from |
| Chunked.OpenFile.constructor | downloads/views.py:20 | `open(path, 'rb')` reads the file's contents from position 0 |
| Chunked.OpenFile.Read | downloads/views.py:22 | `f.read(n)` returns the next `n` bytes (fewer at the end, none at end of file) and advances the position by that many |
| Chunked.StreamVideo | downloads/views.py:19-25 | the yielded chunks concatenate to the file contents, each holds 1 to 8192 bytes, and all but the last hold exactly 8192 |
| Chunked.ChunkCount | downloads/views.py:21-25 | such chunks number the file size divided by 8192, rounded up |
| Chunked.FullChunksLength | downloads/views.py:21-25 | full chunks together hold 8192 bytes each |
| RangeHeader.SkipSpaces | downloads/views.py:17 | a greedy `\s*` stops at the first position that does not hold whitespace, with only whitespace before it |
| RangeHeader.SkipDigits | downloads/views.py:17 | a greedy `(\d*)` stops at the first position that does not hold a digit, with only digits before it |
| RangeHeader.MatchRange | downloads/views.py:17 | both captured groups of a match are digit strings |
| RangeHeader.MatchSound | downloads/views.py:17 | a match means the header is `bytes`, whitespace, `=`, whitespace, group 1, `-`, group 2 and a rest that does not start with a digit |
| RangeHeader.MatchComplete | downloads/views.py:17 | every header of that form (any rest) matches, with the same first group and a second group that extends the given one |
| RangeHeader.RangeTypeNeverBytes | downloads/views.py:87-95 | the first group is never `bytes`, so the 206 branch is dead |
| Delivery.Response.constructor | downloads/views.py:83-84 | a new streaming response has status 200 and only the given `Content-Type` |
| Delivery.Response.SetHeader | downloads/views.py:97-99 | `response[name] = value` sets that one header and keeps the status and every other header |
| Delivery.DeliveryHeaders | downloads/views.py:97-99 | the delivery headers are `Content-Disposition: attachment;`, `Accept-Ranges: bytes` and a `Content-Length` that is the file size in canonical decimal, which `int()` reads back as the size; every other header is kept |
| Delivery.SetDeliveryHeaders | downloads/views.py:86-99 | whatever the `Range` header, the status is unchanged and exactly the three delivery headers are added |
| Delivery.FreshDeliveryHeaders | downloads/views.py:83-99 | the delivery headers added to a fresh octet-stream response are exactly those of a full download, with no `Content-Range` |
| Delivery.Respond | downloads/views.py:82-99 | the response is a 200 with exactly `Content-Type: application/octet-stream`, `Content-Disposition: attachment;`, `Accept-Ranges: bytes` and the full size in canonical decimal as `Content-Length`, and no `Content-Range` |
| Naming.ShortHash | downloads/views.py:70 | `digest[:5]` is a prefix of the digest with five characters, or all of a shorter one |
| Naming.OutputFilename | downloads/views.py:70-71 | the output name is `ISAVER.CLICK_`, at most five characters from the front of the digest, and `.mp4` |
| Naming.ShortHashOf | downloads/views.py:71 | a name of the output form is the prefix, the short hash it returns, and `.mp4` |
| Naming.ShortHashRoundTrip | downloads/views.py:70-71 | the output name gives back the short hash it was built from |
| Naming.OutputFilenameShape | downloads/views.py:70-71 | for a SHA-1 hex digest the name has 22 characters: `ISAVER.CLICK_`, the first five digest characters and `.mp4`, with no `/` |
| Naming.Join | downloads/views.py:62-72 | `os.path.join(dir, name)` ends with the name and, for a relative name, starts with the directory |
| Naming.Basename | downloads/views.py:72 | the last path component, a suffix of `p` with no `/`; the view never calls `basename`, and `JoinInDirectory` uses it to say that the output path ends in the output name |
| Naming.JoinWithin | downloads/views.py:72 | `os.path.join(dir, name)` for a relative name lies below `dir`, with the name after the separating `/` |
| Naming.JoinDistinct | downloads/views.py:62-72 | different file names in the temporary directory give different paths |
| Naming.JoinInDirectory | downloads/views.py:72 | the output path lies directly in the temporary directory, and its base name is the output name |
| Download.FileSystem.Mkdtemp | downloads/views.py:58 | `mkdtemp` adds one new directory and no files |
| Download.FileSystem.WriteFile | downloads/views.py:61-66 | a download writes one file and changes nothing else |
| Download.FileSystem.GetSize | downloads/views.py:82 | `getsize` is the length of the file, or fails when there is none |
| Download.FileSystem.Rmtree | downloads/views.py:103 | `rmtree` removes the directory and every directory and file below it, and nothing else |
| Download.SaveStreams | downloads/views.py:60-67 | the video is saved first, then the audio; a missing stream or a failed download raises and stops there; the files written are exactly the saved downloads |
| Download.MuxAndRespond | downloads/views.py:74-101 | `subprocess.run` raising, the printed log failing to decode, and a missing output file each raise, in that order; otherwise, whatever the exit status, the response is a 200 with the headers of a full download of the output file; only the output file is written |
| Download.DownloadAndMux | downloads/views.py:59-101 | the `try` block returns a response exactly when both streams exist and download, ffmpeg runs, its printed log decodes and the output exists; otherwise it raises the first exception the view meets; the temporary directory then holds `video.mp4` with the saved video once it is saved, `audio.mp4` with the saved audio once both are saved, the output file with what ffmpeg wrote once it was written, and nothing else; nothing outside it changes; a response's `Content-Length` is the size of that output file |
| Download.DownloadSelected | downloads/views.py:58-103 | on every way out the temporary directory and everything below it are gone and all other directories and files are as before; the result is that of the `try` block, and a response is a 200 with exactly `Content-Type: application/octet-stream`, `Content-Disposition: attachment;`, `Accept-Ranges: bytes`, the full size in canonical decimal as `Content-Length`, and no `Content-Range` |

## Left out

- The pytube calls (`YouTube(url)`, the stream queries, `.first()`, `.download`) are network
  library calls. The labels of the video-only MP4 streams, the two streams and what their
  downloads save are inputs. The labels are taken in the order the query returns them
  (`order_by('resolution').desc()`). That order does not change the set or the sorted
  result, but it decides which unreadable label the `ValueError` quotes.
- The ffmpeg subprocess and the `shlex.split` command are an external process. Whether
  `subprocess.run` raises, the exit status, whether the captured streams are valid UTF-8,
  and the file ffmpeg writes are inputs. The command line itself is not modelled; the paths
  `mkdtemp` and the view build contain no quote characters that `shlex.split` would treat
  specially.
- The text written by the `print` calls at lines 63, 68, 78 and 80 is not modelled. The
  `.decode()` inside lines 78 and 80 is modelled, because it can raise.
- The SHA-1 of `random.random()` is a hash of a random float. The hex digest is an input.
- `mkdtemp`'s choice of name is an input. Its freshness is a precondition: no such
  directory exists, and no directory or file lies below it.
- Django forms, `render`, the `ChoiceField` and the `request.POST` checks are framework code.
  `download_video` before line 58 and after line 103 is not modelled, beyond the `f'{r}p'`
  choices.
- `StreamingHttpResponse` is modelled only as a status and a header map keyed by exact
  names. Django's case-insensitive header names are not modelled.
- Laziness of the body generator is not modelled. The body is never attached to the
  response. `stream_video` opens the output file only when the response body is first
  iterated, after the `finally` clause has removed the temporary directory. A real file
  system's behaviour at that point is outside this model.
- A download that raises after writing part of its file leaves nothing in the model. The
  `rmtree` in the `finally` clause removes such a file anyway, so the final state is the
  same.
- RangeHeader.MatchRange: `\d` matches every Unicode decimal digit. The model matches
  ASCII digits only.
- Decimal.ParseInt: `int()` accepts every Unicode decimal digit and `_` between digits.
  The model accepts ASCII digits only. All text the view itself produces is ASCII.
- Decimal.ParseInt: Python 3.11 and later refuse to convert text of more than 4300 digits
  (a configurable limit). The model has no limit; resolutions and file sizes have a few
  digits.
- RangeHeader.MatchComplete: states only that the second group extends the given digits.
  The greedy group may also take digits that begin the rest.
- Naming.Join: covers `os.path.join` with two arguments on POSIX only, which is how the
  view calls it.
- `downloads/models.py` and `downloads/urls.py` are not part of this model: ORM field
  declarations, methods that call pytube, ffmpeg-python and a transcript API, and route
  configuration.
