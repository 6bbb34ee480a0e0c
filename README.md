# NGA image dataset scripts, modelled in Dafny

This project models the three scripts that build and inspect an image dataset
from the National Gallery of Art open-data tables. The tables are
published_images.csv, objects.csv, constituents.csv and objects_constituents.csv.

- **download_images.py** narrows the published images and enriches them:
  - It drops images without a IIIF base URL.
  - It can filter by object classification and subclassification, and by artist
    name (a case-insensitive substring match against constituents linked to an
    object with the role `artist`).
  - It merges in object metadata and the joined artist names.
  - It then requests every remaining image. Each outcome is recorded as one line
    of download_log.txt. On status 200 it also writes one row of description.csv,
    which gets its header only when the file is new. The file is deleted at the
    start of each session.
- **search_artists.py** lists the NGA artists whose name contains a term. On
  request it shows their work counts, largest first. It also ranks the top
  constituents by work count, with pandas' `head` semantics.
- **analyze_dataset.py** recovers the uuids of the downloaded `.jpg` files. It
  joins them back to images, objects, artist links and constituents, counts rows
  per author (grouped, sorted and without missing names), and writes
  dataset_info.csv and one list file per author.

Modules:

- `Wrappers`: missing values.
- `Seqs`: row selection `df[mask]`, subsequences, the inner merge.
- `Text`: case-insensitive matching, `join`, `replace`, decimal rendering.
- `Tables`: the row types of the CSV tables.
- `Order`: the string order `groupby` lists its keys in.
- `Selection`: the filters and enrichment of download_images.py.
- `Downloader`: outcomes, the `Ledger` class for the two shared files, and the
  `DownloadImage`, `DownloadAll` and `DownloadDataset` methods.
- `ArtistSearch`: search_artists.py.
- `Analysis`: analyze_dataset.py.

Tables are sequences of rows, and a missing CSV cell (NaN) is `None`. The
network is a parameter `fetch: nat -> Response`: `fetch(i)` is what the i-th
submitted request produced, either an HTTP status or an exception message. The
two files that download_image writes through locks are the fields of a `Ledger`
object, which the methods update in place.

Where the documentation and the code differ, the model follows the code:

- An empty filter list behaves like no list at all: every test in the source is
  a truthiness test.
- The artist names are joined with `', '.join`. A constituent that is reached
  through an artist-role link and has no display name makes that join raise.
  This ends `download_dataset` before any log line is written. The model has a
  separate outcome for this (`ArtistJoinFailed`). Constituents that are not
  linked as artists never reach the join, so their missing names do no harm.
- `head(top_n)` with a negative argument keeps all rows but the last `-top_n`.

## Model

| member | source | states |
|---|---|---|
| Selection.WithUrls | project/scripts/download_images.py:189-190 | exactly the image rows that have a IIIF base URL remain |
| Selection.FilterByClassification | project/scripts/download_images.py:94-111 | exactly the images depicting an object whose classification is allowed (when a list is given) and whose subclassification is not excluded; input order kept; no row gained |
| Selection.ExclusionsOnlyShrink | project/scripts/download_images.py:100-103 | excluding more subclassifications keeps a subsequence of what fewer exclusions keep |
| Selection.FilterByArtists | project/scripts/download_images.py:134-165 | with no names the images come back unchanged; otherwise exactly the images whose object has an artist-role link to a constituent whose name contains one of the names ignoring case; order kept |
| Selection.MergeObjects | project/scripts/download_images.py:212-217 | left merge: every input image keeps at least one row, and every row carries an input image and the cells of an object with its id (or missing cells when there is none) |
| Selection.MergeObjectsRowsPerImage | project/scripts/download_images.py:212-217 | each occurrence of an image gets one row per objects.csv row with its object id, and exactly one row when there is none |
| Selection.MergeObjectsOneToOne | project/scripts/download_images.py:212-217 | when object ids are unique the merge keeps one row per image, in image order |
| Selection.WithoutObjects | project/scripts/download_images.py:208-217 | without objects.csv every image row goes on with its object columns absent |
| Selection.ArtistPairs | project/scripts/download_images.py:226-229 | exactly the (object id, display name) pairs of artist-role links matched with their constituent |
| Selection.NamesOf | project/scripts/download_images.py:232-234 | an object's list of names is empty exactly when it has no pair |
| Selection.NamesOfGroup | project/scripts/download_images.py:232-234 | an object's group holds exactly the names paired with its id, one per pair of that id |
| Selection.GroupNamesInLinkOrder | project/scripts/download_images.py:226-234 | an object's group lists, link by link in the order of objects_constituents.csv, the names of the constituents each of its artist-role links names |
| Selection.ArtistInLinkOrder | project/scripts/download_images.py:226-238 | the artist cell is missing exactly when that list of linked names is empty, and otherwise holds those names joined with ", " |
| Selection.ArtistMissingIffNoArtistLink | project/scripts/download_images.py:226-238 | an object's artist cell is missing exactly when no artist-role link ties it to a known constituent |
| Selection.TwoAuthorsJoined | project/scripts/download_images.py:226-234 | two artist links of one object give the single cell "A, B", in link order |
| Selection.AttachArtists | project/scripts/download_images.py:220-238 | one candidate per merged row, carrying that row's image and object cells |
| Selection.AfterArtistsHaveUrls | project/scripts/download_images.py:189-217 | every row left after the filters and the object merge is an input image that has a URL |
| Selection.CandidatesSound | project/scripts/download_images.py:184-238 | every candidate comes from an image with a URL that passed each filter that ran; its artist column is absent without the artist tables, otherwise it is the joined names of its object |
| Selection.CandidatesOnePerImage | project/scripts/download_images.py:208-238 | with unique object ids there is one candidate per filtered image, in filtered order |
| Downloader.PrepareCandidates | project/scripts/download_images.py:189-238 | narrowing the data step by step, and stopping at the first empty filter result, yields `Prepare` |
| Downloader.ImageUrl | project/scripts/download_images.py:40 | the URL is the IIIF request for full region, full size, rotation 360, default quality, JPEG, under the base URL |
| Downloader.FileName | project/scripts/download_images.py:41 | the file name is the uuid followed by `.jpg` |
| Downloader.ColumnOr | project/scripts/download_images.py:59-63 | the default applies only to a column that is absent; a present but missing cell stays missing |
| Downloader.DescriptionOf | project/scripts/download_images.py:47-65 | a description row exists exactly on status 200, with uuid, file name and the defaults Unknown / Untitled for absent columns |
| Downloader.LogLineKind | project/scripts/download_images.py:53-73 | every log line reads back as the outcome it records: SUCCESS for 200, FAILURE with the same HTTP code otherwise, ERROR for an exception |
| Downloader.FailureLineKind | project/scripts/download_images.py:68-69 | a FAILURE line gives back its status code |
| Downloader.Ledger.WriteLog | project/scripts/download_images.py:15-18 | the log gains exactly the message as its last line; the description file is untouched |
| Downloader.Ledger.WriteDescription | project/scripts/download_images.py:21-34 | one record is appended, preceded by the header only when the file did not exist |
| Downloader.NewFileHasOneHeader | project/scripts/download_images.py:28-34 | writing rows into a missing file gives one header followed by the records, or no file for no rows |
| Downloader.ExistingFileGetsNoHeader | project/scripts/download_images.py:28-34 | writing rows into an existing file appends their records only |
| Downloader.Ledger.RemoveDescription | project/scripts/download_images.py:184-186 | the description file no longer exists; the log is untouched |
| Downloader.DownloadImage | project/scripts/download_images.py:37-73 | each download appends exactly its log line, and a description record only on status 200 |
| Downloader.SuccessLineIff | project/scripts/download_images.py:47-69 | a candidate's log line is a SUCCESS line exactly when it writes a description row |
| Downloader.SuccessLinesCount | project/scripts/download_images.py:47-73 | the log lines of the candidates hold one SUCCESS line per request that returned 200 |
| Downloader.RecordsMatchSuccessLines | project/scripts/download_images.py:47-69 | the description rows are exactly as many as the SUCCESS lines |
| Downloader.SessionHeaderHasNoOutcome | project/scripts/download_images.py:240-248 | no session-start line reads as a SUCCESS line |
| Downloader.SessionBookkeeping | project/scripts/download_images.py:184-253 | over a session the log gains exactly one SUCCESS line per description record, and the file is one header followed by those records |
| Downloader.WriteSessionHeader | project/scripts/download_images.py:240-248 | the log gains the rule, the start line, one line per non-empty option list, and the rule |
| Downloader.DownloadAll | project/scripts/download_images.py:250-253 | the log gains the candidates' lines in order and the file gains the rows of the successful ones |
| Downloader.DownloadDataset | project/scripts/download_images.py:184-253 | the old description file is gone; when preparation stops early the log is unchanged; otherwise the log gains the session header and one line per candidate, and the file holds the successful rows under one header |
| ArtistSearch.SelectArtists | project/scripts/search_artists.py:24-31 | exactly the constituents flagged as NGA artists and, when a term is given, whose name contains it ignoring case; table order kept |
| ArtistSearch.WorksByConstituent | project/scripts/search_artists.py:42-44 | a constituent has an entry exactly when it has an artist-role link, and the entry is their number |
| ArtistSearch.SortDescending | project/scripts/search_artists.py:56 | the same rows as a multiset, in non-increasing order of the key |
| ArtistSearch.SearchArtists | project/scripts/search_artists.py:24-71 | nothing is shown exactly when no artist is selected; without statistics, one row per selected artist in table order; with statistics, the same rows with work counts in non-increasing order |
| ArtistSearch.Ranking | project/scripts/search_artists.py:86-91 | exactly the constituents with at least one artist link, each with its count |
| ArtistSearch.Head | project/scripts/search_artists.py:92 | the first n rows (all when fewer); for a negative n, all but the last -n |
| ArtistSearch.TopRankedShape | project/scripts/search_artists.py:86-92 | the top list has the length `head` gives, is in non-increasing order, and draws from the ranking without repeating rows |
| ArtistSearch.TopRankedOmitsNoHigher | project/scripts/search_artists.py:92 | no ranked constituent left out has a higher count than the last one shown |
| ArtistSearch.TopArtists | project/scripts/search_artists.py:97-101 | rows are numbered from 1; each shows the name, the count (at least 1) and the date or "?" |
| Analysis.DownloadedFiles | project/scripts/analyze_dataset.py:19 | exactly the names of the listing that end in `.jpg`, in listing order |
| Analysis.DownloadedUuids | project/scripts/analyze_dataset.py:20 | one uuid per file: its name with every `.jpg` removed |
| Analysis.UuidsOfDownloadedFiles | project/scripts/analyze_dataset.py:19-20 | the uuids are exactly recovered from the files the downloader names, when no uuid contains a dot |
| Analysis.DownloadedImages | project/scripts/analyze_dataset.py:25 | exactly the image rows whose uuid was downloaded, each as often as in the table, in order |
| Analysis.ObjectIds | project/scripts/analyze_dataset.py:28 | exactly the objects that a downloaded image depicts |
| Analysis.DownloadedObjects | project/scripts/analyze_dataset.py:29 | exactly the object rows of those objects |
| Analysis.AuthorRelations | project/scripts/analyze_dataset.py:32-35 | exactly the artist-role links of those objects |
| Analysis.FullInfoExactly | project/scripts/analyze_dataset.py:25-54 | a row is in the merged table exactly when it combines an artist link, its constituent, its object and a downloaded image of that object |
| Analysis.ByAuthor | project/scripts/analyze_dataset.py:61 | the author counts are strictly sorted by name and all positive |
| Analysis.ByAuthorCounts | project/scripts/analyze_dataset.py:61 | each author's count is its number of merged rows, and every named author has an entry |
| Analysis.ByAuthorTotal | project/scripts/analyze_dataset.py:61 | the counts add up to the number of rows with a name |
| Analysis.AuthorWorks | project/scripts/analyze_dataset.py:71 | exactly the merged rows of that author, in order |
| Analysis.AuthorListLines | project/scripts/analyze_dataset.py:92-94 | one line per work of the author: its uuid followed by `.jpg` |
| Analysis.AuthorListMatchesCount | project/scripts/analyze_dataset.py:84-94 | each author's list file has as many lines as the author's count |
| Analysis.SafeName | project/scripts/analyze_dataset.py:89 | the safe name has no space and no comma, and is shorter by the number of commas |
| Analysis.SafeNameIdempotent | project/scripts/analyze_dataset.py:89 | making a safe name safe again changes nothing |
| Analysis.SafeNamesCanCollide | project/scripts/analyze_dataset.py:89-90 | two different authors can share a list file |
| Analysis.AuthorFiles | project/scripts/analyze_dataset.py:84-94 | one file per distinct list-file name and no other |
| Analysis.ByAuthorFiles | project/scripts/analyze_dataset.py:82-94 | the loop over the authors of `by_author` leaves one list file for each display name that occurs in the merged table, and no other |
| Analysis.AuthorFileContents | project/scripts/analyze_dataset.py:84-94 | an author's file holds exactly that author's list unless a later author maps to the same file |
| Analysis.DatasetInfo | project/scripts/analyze_dataset.py:77-80 | a header, then uuid, display name, title and date of each merged row, a missing cell written empty |

## Left out

- The thread pool and the locks: requests are modelled as one sequential loop in submission order. `fetch` fixes each request's outcome, so the interleaving of log lines across threads is not modelled.
- `requests.get`, its timeout and streaming, and the image bytes written to disk: only the status code or the exception message reach the model.
- Reading CSV files and listing directories: tables and listings are inputs. `os.path.exists` is the `Option` of the description file.
- The interactive menus under both scripts' main guards, and every `print`, including the fixed-width padding of printed rows. The printed rows are modelled as records of their fields.
- The fallback `top_n = 20` when the input is not a number: it belongs to the menu.
- `Selection.NameMatches` and `ArtistSearch.NameContains`: the names joined with `|` are read as plain substrings, not as a regular expression, and lower-casing is ASCII-only (no Unicode case folding).
- `ArtistSearch.SortDescending`: only non-increasing order and the permutation are stated. The tie order of pandas' default quicksort is not modelled.
- Seqs.InnerJoin: rows come out grouped by the left row in left order. pandas' exact row order for inner merges on repeated keys is not claimed.
- The order of rows in the artist groups follows the link table after the inner merge with constituents. Everything that depends on it, such as "A, B" against "B, A", relies on that merge order.
- Object ids are integers. Float-typed columns from CSVs with missing values, and the resulting id comparisons, are not modelled.
- Downloader.RecordsMatchSuccessLines: an exception is modelled only where it happens before the SUCCESS line (the request itself, or writing the image file). `Raised` logs one ERROR line and writes no row. An exception in write_description (download_images.py:65) comes after the SUCCESS line (line 53). That candidate then logs SUCCESS followed by ERROR (lines 71-73) and writes no row, so in the source a failing description write breaks "one row per SUCCESS line". That path is not modelled.
- The log is modelled as one entry per `write_log` message. The entry count equals the file's line count only when no message holds a newline. A status line can hold one only through the exception text or a uuid or URL taken from the tables. `CountSuccess` counts messages, not physical lines of download_log.txt.
- `Downloader.DescriptionOf`: rendering a row to CSV text (quoting) is left out. A record is its list of cells, and a missing cell is an empty field.
- analyze_dataset.py prints each author's works (lines 68-73). That is output only, so it is modelled by `Analysis.AuthorWorks` and not rendered.
