# MangaDownloader, modelled in Dafny

MangaDownloader is a single Python script. It downloads a web comic one chapter at a time
from the MangaDex API. Starting from a fixed chapter id, each turn of its main loop does four things:

- it asks the at-home server for the chapter's image manifest;
- it downloads every page into `Downloaded_Manga/Chapter_NN/NN.jpg`;
- it asks the chapter endpoint for the id of the manga;
- it looks the current chapter up in the manga's chapter listing and moves on to the entry
  that follows it.

The loop stops when the manifest is empty, the manga id is missing, or no following
chapter exists. The script also ends, with a traceback, when one of its three JSON requests
raises. The model leaves that case out (see "## Left out").

This project models the pure computations inside that script and the loop itself:

- `wrappers.dfy` (`Wrappers`): `Option` and Python truthiness of an optional string
  (`None` and `""` are both false).
- `decimal.dfy` (`Decimal`): ASCII digit strings, the decimal rendering of a natural
  number, and the `{n:02d}` zero padding.
- `naming.dfy` (`Naming`): the page file names `NN.jpg` and the chapter folder names
  `Chapter_NN`.
- `chapters.dfy` (`Chapters`): the pure parts of `get_chapter_data` (status check and
  chapter-number parsing) and `get_next_chapter` (status check and the successor search).
- `manifest.dfy` (`Manifest`): `get_image_links`, which builds the URL list
  `base + "/data/" + hash + "/" + img`.
- `download.dfy` (`Download`): `download_images` over an abstract file system. The network
  is an oracle that gives the outcome of each fetch.
- `driver.dfy` (`Driver`): the top-level `while` loop as a fuel-bounded state machine over
  the cursor `(chapter_id, chapter_number)`. The three JSON endpoints and the image host are
  oracle functions. `Run` takes the two halves of an iteration as parameters: the control
  decision (`Stepper`) and the effect on the file system (`Effector`). `Program` supplies the
  script's own: `ScriptStep`, which applies `NextStep`, and `ChapterDownload`. The loop lemmas therefore hold for any
  step and effect, and separate lemmas show what the script's step and effect satisfy.

The model makes these choices, all taken from the code:

- The successor is looked up by chapter id, with the first matching entry winning.
- The chapter attribute is coerced to an integer (`isdigit`, then `int`).
- The empty string stops the loop just like `None` does. This applies to the manga id and
  to the next chapter id, because the code tests them with `not`.
- The folder counter comes from the loop's own counter. The chapter number that
  `get_chapter_data` returns is thrown away (`manga_id, _ = ...`).

## Model

| member | source | states |
|---|---|---|
| Decimal.ToDecimal | python-image-downloader.py:72 | the decimal rendering of n is a non-empty digit string; it starts with '0' only for n = 0; it has one digit exactly when n < 10 and at most two when n < 100 |
| Decimal.DecimalValue | python-image-downloader.py:72 | evaluating the decimal rendering of n gives back n |
| Decimal.RenderValue | python-image-downloader.py:72 | on digit strings without a leading zero, rendering is the inverse of evaluation, so the rendering of a number is unique |
| Decimal.Pad2 | python-image-downloader.py:72 | `{n:02d}` is a digit string of length max(2, digits of n): '0's followed by the decimal rendering of n; it is exactly 2 characters for n < 100 and is never truncated |
| Decimal.Pad2Value | python-image-downloader.py:72 | the padding zeros carry no value: the padded string still denotes n |
| Decimal.Pad2Injective | python-image-downloader.py:72 | two numbers have the same padded rendering exactly when they are equal |
| Decimal.LeadingZero | python-image-downloader.py:21 | a leading '0' does not change the value of a digit string, as with `int("007")` |
| Decimal.ZeroValue | python-image-downloader.py:21 | a digit string denotes 0 exactly when all its digits are '0' |
| Wrappers.Truthy | python-image-downloader.py:96-113 | the tests `while chapter_id`, `if not manga_id` and `if not next_chapter_id` treat a value as true exactly when it is neither None nor the empty string |
| Naming.PageName | python-image-downloader.py:72 | the page file name is at least 6 characters, exactly 6 below page 100, ends in ".jpg", and everything before the suffix is digits |
| Naming.PageNameValue | python-image-downloader.py:72 | the digits of the name of position i denote i + 1, the one-based page number |
| Naming.PageNameInjective | python-image-downloader.py:71-72 | two positions share a file name exactly when they are the same position |
| Naming.PageNameExamples | python-image-downloader.py:72 | positions 0, 2, 9 and 99 are named 01.jpg, 03.jpg, 10.jpg and 100.jpg; counter 1 gives the folder Chapter_01 |
| Naming.ChapterFolderName | python-image-downloader.py:97 | the folder name starts with "Chapter_", is followed only by digits, and is exactly 10 characters for counters below 100 |
| Naming.ChapterFolderNameValue | python-image-downloader.py:97 | the digits after "Chapter_" denote the chapter counter |
| Naming.ChapterFolderNameInjective | python-image-downloader.py:97 | two counters share a folder name exactly when they are equal |
| Chapters.ParseChapterNumber | python-image-downloader.py:19-21 | a non-empty all-digit attribute parses to its decimal value and anything else to 0; the result is 0 exactly when the attribute has a non-digit or is all zeros (the empty string included) |
| Chapters.ParseRendered | python-image-downloader.py:21 | parsing reads back every number written in decimal, padded or not |
| Chapters.ParseExamples | python-image-downloader.py:19-21 | "", "0", "10.5", "-3" and " 7" all parse to 0, and "007" parses to 7 |
| Chapters.GetChapterData | python-image-downloader.py:11-21 | a non-200 answer gives (None, None); a 200 answer gives the manga id as found and the parsed chapter attribute, which is "0" when the attribute is missing |
| Chapters.ScanFrom | python-image-downloader.py:43-47 | the loop as written: when the scan from i answers, `current` occurs at a position from i on that is not the last one, and the answer is an entry after i |
| Chapters.ScanFromFirst | python-image-downloader.py:43-47 | when j is the first position at or after i that holds `current`, the scan from i returns the entry after j, or nothing when j is the last position |
| Chapters.ScanFromAbsent | python-image-downloader.py:43-47 | when `current` does not occur at or after position i, the scan from i returns nothing |
| Chapters.Successor | python-image-downloader.py:42-47 | the result is present exactly when `current` is in the list and its first occurrence is not the last entry; it is then the entry right after that first occurrence |
| Chapters.GetNextChapter | python-image-downloader.py:34-47 | a non-200 answer gives None; otherwise the result is the successor of `current` in the listing, with the same presence condition |
| Chapters.SuccessorFollows | python-image-downloader.py:43-45 | when position k holds the first occurrence of `current` and k is not the last position, the successor is the entry at k + 1 |
| Chapters.SuccessorExample | python-image-downloader.py:43-47 | in the listing [A, B, C], A is followed by B and B by C, and C has no successor |
| Chapters.SuccessorFirstMatchWins | python-image-downloader.py:43-45 | with a duplicated id the first occurrence decides: the successor of a in [a, b, a, c] is b |
| Manifest.ImageUrl | python-image-downloader.py:64 | a page URL is the prefix `base/data/hash/` followed by the fragment, and the fragment can be cut back out of it |
| Manifest.ImageLinks | python-image-downloader.py:64 | the URL list has one entry per fragment, and entry k is the URL of fragment k |
| Manifest.FragmentsRecoverable | python-image-downloader.py:64 | every fragment can be read back from its URL, so the URL list loses nothing |
| Manifest.ImageUrlInjective | python-image-downloader.py:64 | within one chapter, distinct fragments give distinct URLs |
| Manifest.GetImageLinks | python-image-downloader.py:52-64 | a non-200 answer gives no URLs; a 200 answer gives one URL per fragment, in order; the list is empty exactly when the status is not 200 or the manifest has no fragments |
| Download.PageNamesInjective | python-image-downloader.py:72 | the page-naming scheme never gives two positions the same name |
| Download.WrittenIff | python-image-downloader.py:75-85 | the path of position j is among the written paths exactly when j's own answer opened the file: status 200, whether or not the stream later raised |
| Download.PagePathsCount | python-image-downloader.py:71-72 | n positions give n distinct page paths |
| Download.Downloaded | python-image-downloader.py:66-85 | the download creates the folder, whatever else it does |
| Download.DownloadOutcome | python-image-downloader.py:71-85 | the files after the download are the old files plus exactly the pages whose answer opened the file; each such page holds the bytes received, all of them or those before the stream raised; every other file keeps its content |
| Download.FailureIsolated | python-image-downloader.py:71-85 | two downloads whose fetches differ only at position j agree on every file except j's page: what happens at one page never shifts or removes another page |
| Download.DownloadStaysInFolder | python-image-downloader.py:69-80 | a download touches no file outside its own folder |
| Download.AllSucceed | python-image-downloader.py:71-80 | when every answer opens its file, the folder gains exactly one distinct page per URL |
| Download.SecondOfThreeFails | python-image-downloader.py:71-85 | in an empty folder, a three-page chapter whose second fetch raises before any file is opened or answers a status other than 200 leaves exactly the first and third pages |
| Download.SecondOfThreeFailsNames | python-image-downloader.py:71-85 | with the script's names, those two pages are 01.jpg and 03.jpg |
| Download.SecondOfThreeInterrupted | python-image-downloader.py:75-85 | when the second answer is 200 but its stream raises, the second page still exists and holds the bytes received before the error, although the script reports the page as an error |
| Download.DownloadImages | python-image-downloader.py:66-85 | the loop's result is the reference download: the folder is created, the pages whose answer opened the file are written with the bytes received, and all other files are untouched |
| Driver.NextStep | python-image-downloader.py:112-117 | when the iteration continues, the next id is non-empty (an empty next id stops the loop) |
| Driver.NextStepSpec | python-image-downloader.py:100-117 | it stops for missing images exactly when the manifest answer is not 200 or has no fragments; it stops for a missing manga exactly when there were images but the metadata gave no 200 answer with a truthy manga id; it continues exactly when the manga's listing answered 200 and holds a non-empty entry right after the first occurrence of the current id, and that entry is the next id |
| Driver.ScriptStepNonEmpty | python-image-downloader.py:112-117 | the script's step never moves to the empty chapter id |
| Driver.ChapterFolder | python-image-downloader.py:97 | a chapter folder is `Downloaded_Manga` followed by one name that starts with "Chapter_" and continues with at least two digits |
| Driver.ChapterDownload | python-image-downloader.py:97-105 | an iteration whose manifest gives no URL leaves the file system as it was; otherwise its chapter folder exists afterwards |
| Driver.Run | python-image-downloader.py:96-118 | the loop runs at most `fuel` iterations; an empty starting id stops it on its guard at once, with nothing visited and the file system unchanged; running out of fuel means every allowed iteration ran; the first iteration is the starting cursor |
| Driver.Program | python-image-downloader.py:88-96 | the script's run never stops on its loop guard, because the starting id is non-empty; it makes at most `fuel` iterations, and its first iteration is the start chapter with counter 1 |
| Driver.RunCounter | python-image-downloader.py:93-118 | the counter of iteration k is the starting counter plus k |
| Driver.RunFollowsSteps | python-image-downloader.py:100-117 | each iteration moves to the chapter its step names; a run ended by a `break` ends with an iteration whose step stops for that cause; when the step never names the empty id, the loop guard ends the run exactly when the starting id is empty |
| Driver.RunIgnoresDownloads | python-image-downloader.py:100-117 | the chapters visited and the stop reason depend on neither the downloads nor the files already on disk |
| Driver.RunFuelEnough | python-image-downloader.py:96-118 | a run that stopped by itself is unchanged by more fuel |
| Driver.EmptyManifestStops | python-image-downloader.py:100-105 | an empty manifest ends the run in its first iteration and leaves the file system unchanged |
| Driver.ChapterDownloadConfined | python-image-downloader.py:97-102 | an iteration's download keeps every directory and touches only files in its own chapter folder |
| Driver.RunKeepsDirs | python-image-downloader.py:88-102 | when each iteration keeps the existing directories, so does the whole run |
| Driver.RunFrame | python-image-downloader.py:96-118 | when each iteration touches only its chapter folder, the run leaves every file outside the folders of its iterations as it was |
| Driver.CycleNeverStops | python-image-downloader.py:112-118 | when the successors form a cycle, the loop never stops by itself: it runs until the fuel is used up |
| Driver.AdvancingStops | python-image-downloader.py:112-118 | a step that always moves from an entry of a listing to the entry right after it stops the loop within the number of entries left from the starting id |
| Driver.FixedListingStep | python-image-downloader.py:107-117 | when every chapter names the same manga and its listing has no duplicates, each move goes from a listed id to the entry right after it |
| Driver.StopsOnFixedListing | python-image-downloader.py:107-118 | when all chapters belong to one manga whose listing has no duplicate ids, the loop stops by itself within the number of entries left in the listing |
| Driver.DuplicateListingCycles | python-image-downloader.py:43-45 | the listing [a, b, a] makes the loop run forever: a is followed by b, and b by the second a |
| Driver.FoldersDistinct | python-image-downloader.py:97 | counters that go up by one give pairwise distinct chapter folders |
| Driver.ProgramFolders | python-image-downloader.py:88-118 | the script's counters are 1, 2, 3, ..., so iteration k has counter k + 1 and its folder is `Chapter_{k+1:02d}`; no two iterations share a folder; the main folder exists at the end |

## Left out

- HTTP transport is not modelled: `requests.get`, status codes and response bodies appear
  only as oracle inputs. This covers the three JSON endpoints (`Driver.Api`) and the image
  host (`Download.Fetcher`, `Driver.ImageServer`). An oracle gives the same answer to the
  same question, so retries and changing server state are not modelled.
- JSON field extraction is not modelled. Responses are datatypes whose fields are already
  extracted. Missing keys, which raise uncaught exceptions in the script, are not modelled.
  A `null` chapter attribute, which would also raise, is not modelled either.
- Chapters.GetChapterData: takes the manga id as already extracted. The scan for the first
  relationship of type "manga" (line 18) is not modelled.
- Query parameters and server-side behaviour are outside the model. This covers the
  English-only filter, ordering by creation date and the 100-entry page limit. The listing
  is taken as the server returns it.
- Python's `str.isdigit` also accepts non-ASCII digits. On those, `int` either parses them
  or raises. Only ASCII '0'..'9' are modelled.
- Streaming in 1024-byte chunks is not modelled. A file holds the whole body, or, for
  `Interrupted`, the bytes received before the stream raised. An exception raised by
  `open` itself writes nothing, so it is modelled as `Raised`.
- File system details are simplified: a directory is a list of path components and a file
  is a directory plus a name. `os.path.join` separators, permissions and disk errors are
  not modelled. `os.makedirs(exist_ok=True)` is adding the directory to a set.
- `time.sleep(1)` and all `print` logging are left out. They do not affect any result.
- Driver.Run: the script can also end with an uncaught exception, which the model has no
  outcome for. A transport error from `requests.get`, or a body that is not JSON for
  `response.json()`, in `get_image_links`, `get_chapter_data` or `get_next_chapter` ends the
  script with a traceback. Those calls have no `try`. `Driver.Api` always answers, so
  `StopReason` covers only the loop guard, the three `break`s and the fuel bound.
- Driver.Run: the script's loop is unbounded, so the model bounds it with fuel, the number
  of iterations allowed. Runs longer than the fuel end with `OutOfFuel`.
  `Driver.RunFuelEnough` shows that more fuel never changes a run that stopped by itself.
  `Driver.CycleNeverStops` shows that a cycle of successors never stops by itself.
- `{n:02d}` for negative n is not modelled. The chapter counter starts at 1 and page
  positions start at 0, so the formatted numbers are never negative.
