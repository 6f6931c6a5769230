# Leaf classifier: a Dafny model

This project models the core of a leaf-species classifier. The core has four parts.

- **The React home page** (`frontend/src/Home.jsx`) lets a user pick an image file or paste an image URL. It sends the image to the prediction server, shows the predicted species, and lists the "Other Possibilities" (the four most confident classes).
- **The dataset downloader** (`backend/download_images.py`) searches for images once per keyword, retrying the search, and saves up to `max_images` numbered files per keyword folder.
- **The dataset splitter** (`backend/prepare_data_split.py`) rebuilds `data/train` and `data/val`. For every class sub-directory of the source, it shuffles the class's images and copies the first `int(n * train_ratio)` to `train` and the rest to `val`.
- **The Gradio front end** (`app.py`) turns one classifier run into a Markdown report and a confidence table (`predict_leaf`). It also lists the trained leaf types (`get_trained_labels_text`).

Modules:

- `Wrappers`: `Option`.
- `Text`: ASCII case mapping, Python's `str.title`, substring search, `rfind`, and decimal and zero-padded formatting with its parse.
- `Ranking`: the stable descending sort by confidence and the first-`k` cut. Both the page and the Gradio app use this ranking.
- `Home`: the page as a class. Each async handler is split at its `await` into a `Handle…` method and `ReceiveReply`.
- `DownloadImages`: the naming, the retry loop and the download loop, as methods proved against recursive specification functions.
- `PrepareDataSplit`: the class and image selection and the split index. The output directory is a class `DataDir`, whose `train`/`val` maps its methods update.
- `GradioApp`: `predict_leaf` and `get_trained_labels_text`.

External effects become parameters:

- the HTTP reply seen by the page;
- the outcome of each search attempt and of each image download;
- the source directory tree;
- the shuffled order of each class's images;
- the classifier run on an uploaded image.

## Model

| member | source | states |
|---|---|---|
| Ranking.SortDesc | frontend/src/Home.jsx:190-191 | the result is a permutation of the entries (same length and multiset) and is ordered by non-increasing confidence |
| Ranking.Insert | frontend/src/Home.jsx:191 | inserting one entry into a sorted list keeps the multiset plus the entry |
| Ranking.InsertSorted | frontend/src/Home.jsx:191 | inserting into a non-increasing list keeps it non-increasing |
| Ranking.InsertBounded | frontend/src/Home.jsx:191 | inserting an entry under a bound into a list under that bound keeps every confidence under it |
| Ranking.SortDescWithProb | frontend/src/Home.jsx:191 | sorting keeps the relative order of entries of equal confidence |
| Ranking.InsertWithProb | frontend/src/Home.jsx:191 | insertion keeps equal-confidence entries in their order, with the new one ahead of them, which is why inserting from the back gives a stable sort |
| Ranking.SortDescStable | frontend/src/Home.jsx:191 | the sort is stable: ties keep their input order |
| Ranking.WithProbHead | frontend/src/Home.jsx:191 | the entries of the head's confidence in a sorted list start with the head |
| Ranking.WithProbAbove | frontend/src/Home.jsx:191 | when every entry scores below `p`, no entry ties at `p`: the step `WithProbHead` uses to show that no tie group of a sorted list lies above its head |
| Ranking.WithProbMember | frontend/src/Home.jsx:191 | an entry is in the tie group at `p` exactly when it is an entry of the list with confidence `p`, so every entry belongs to the tie group of its own confidence |
| Ranking.SameTiesDetermine | frontend/src/Home.jsx:191 | two sorted lists with the same tie groups are equal |
| Ranking.StableSortUnique | frontend/src/Home.jsx:191 | any non-increasing list with the same tie groups as the input is exactly the sort's result, so a stable sort is unique |
| Ranking.Top | frontend/src/Home.jsx:190-192 | the first `k` of the sorted entries: `min(k, n)` entries, non-increasing, drawn from the input |
| Ranking.TopDominates | frontend/src/Home.jsx:190-192 | no entry left out of the first `k` scores above an entry kept |
| Ranking.TopIsStablePrefix | frontend/src/Home.jsx:190-192 | the first `k` are the prefix of any stable descending sort of the input |
| Ranking.TopHeadIsMaximum | frontend/src/Home.jsx:190-192 | the first entry shown has the highest confidence of all |
| Home.AlertFor | frontend/src/Home.jsx:36-43 | no alert exactly on a successful reply; "Error: " plus the server's message on an error reply; the fixed connection message when the request fails |
| Home.OtherPossibilities | frontend/src/Home.jsx:190-192 | at most four entries, in non-increasing confidence, taken from `all_probs` |
| Home.OtherPossibilitiesAreBest | frontend/src/Home.jsx:190-192 | every class not listed scores no higher than every class listed |
| Home.OtherPossibilitiesStable | frontend/src/Home.jsx:190-192 | the list is the first four of the stable sort, whatever stable sort is used |
| Home.WinnerHeadsOtherPossibilities | frontend/src/Home.jsx:177-192 | when the predicted class is the unique most confident entry, it heads the list |
| Home.HomePage.constructor | frontend/src/Home.jsx:6-10 | no file, no preview, empty URL, no result, not loading |
| Home.HomePage.HandleFileChange | frontend/src/Home.jsx:13-21 | a selected file becomes the file and its preview, clears the URL and the result; no selection changes nothing |
| Home.HomePage.HandleUrlChange | frontend/src/Home.jsx:154-158 | the URL becomes the typed text and the file is cleared; a non-empty URL becomes the preview |
| Home.HomePage.HandleUpload | frontend/src/Home.jsx:23-35 | without a file nothing is sent; otherwise the file is posted and the page is loading, which disables both buttons |
| Home.HomePage.HandleUrlUpload | frontend/src/Home.jsx:49-62 | without a URL nothing is sent; otherwise the URL is posted and the page is loading, which disables both buttons |
| Home.HomePage.ReceiveReply | frontend/src/Home.jsx:36-46 | the result is replaced only by a successful reply, the alert matches the reply, and loading ends in every case |
| Home.HomePage.IdentifyEnabled | frontend/src/Home.jsx:126 | the definition of the "Identify Leaf" button being enabled: a file is chosen and nothing is loading |
| Home.HomePage.GoEnabled | frontend/src/Home.jsx:163 | the definition of the "Go" button being enabled: a URL is typed and nothing is loading |
| Home.ButtonsExclusive | frontend/src/Home.jsx:126-163 | "Identify Leaf" and "Go" are never enabled together, because a file and a URL never coexist |
| Home.IdentifyByFile | frontend/src/Home.jsx:23-47 | a whole file identification ends not loading, with the result replaced exactly when the reply succeeded |
| DownloadImages.FirstToken | backend/download_images.py:11 | the text before the first space: a prefix with no space, followed by a space when shorter than the keyword |
| DownloadImages.FolderName | backend/download_images.py:11 | the lower-cased first word of the keyword |
| DownloadImages.SaveDir | backend/download_images.py:14-17 | a non-empty base directory holds the folder; otherwise it goes under `dataset` |
| DownloadImages.Extension | backend/download_images.py:53-55 | `.png` exactly when the lower-cased URL contains "png", `.jpg` otherwise |
| DownloadImages.FileName | backend/download_images.py:57 | the definition of `f"{folder_name}_{count:03d}{ext}"` |
| DownloadImages.FileNameParts | backend/download_images.py:57 | a file name is the folder, `_`, at least three digits that read back as the count, and the extension |
| DownloadImages.SavedName | backend/download_images.py:57 | the definition of `save_dir / name` for the file numbered `n` |
| DownloadImages.JoinFileName | backend/download_images.py:57 | a saved path is the directory, the folder, `_`, the count zero-padded to at least three digits, and the extension |
| DownloadImages.FileNamesDistinct | backend/download_images.py:57 | two saved paths of one folder are equal only when their counts are equal |
| DownloadImages.Backoff | backend/download_images.py:34-35 | the pause after a failed attempt is 2 or 4 seconds, or none |
| DownloadImages.AttemptEventsShape | backend/download_images.py:24-35 | one attempt logs one search, followed by a sleep of 2·(attempt+1) seconds exactly when it raised and is not the last |
| DownloadImages.AttemptEvents | backend/download_images.py:25-35 | the definition of one attempt's log: its search, then the backoff when it raised |
| DownloadImages.RetryFrom | backend/download_images.py:24-35 | the reference definition of the retry loop from a given attempt on, which `SearchWithRetry` is proved to compute |
| DownloadImages.Retry | backend/download_images.py:22-35 | the reference definition of the whole retry loop, from attempt 0 |
| DownloadImages.FirstFoundIsFirst | backend/download_images.py:24-31 | the first attempt with hits has hits, and no earlier attempt does |
| DownloadImages.RetryFromHits | backend/download_images.py:24-31 | the loop ends with the hits of the first attempt that returns some, or none |
| DownloadImages.RetryFromCount | backend/download_images.py:24-31 | the loop searches once per attempt up to the first with hits, or three times when none has |
| DownloadImages.RetryFromFindsFirst | backend/download_images.py:24-35 | results are found exactly when some attempt returns a non-empty list; the first such list is used, and only the attempts up to it search |
| DownloadImages.RetrySearchesBounded | backend/download_images.py:23-31 | the loop searches at least once and at most three times |
| DownloadImages.RetrySearchesAsk | backend/download_images.py:28 | every search is for the keyword with `max_images + 30` results |
| DownloadImages.RetrySleepsBetweenAttempts | backend/download_images.py:32-35 | every sleep lies between two searches and lasts 2 or 4 seconds |
| DownloadImages.RetryEventsEnds | backend/download_images.py:24-35 | the log starts and ends with a search, and is empty only when no attempt is left |
| DownloadImages.SearchWithRetry | backend/download_images.py:22-35 | the retry loop produces the results and the event log of `Retry`, the recursive definition of the loop |
| DownloadImages.DownloadFrom | backend/download_images.py:41-67 | the reference definition of the download loop, which `DownloadHits` is proved to compute |
| DownloadImages.Downloadable | backend/download_images.py:41-67 | the definition of the URLs that download, in order, up to the first hit without an image key |
| DownloadImages.HasNoImageKeyTail | backend/download_images.py:41-45 | past a hit with an image key, a hit without one lies ahead exactly when it lies in the rest |
| DownloadImages.DownloadFromCount | backend/download_images.py:41-67 | the loop saves the smaller of the room left and the downloadable URLs, and aborts exactly when a hit without an image key comes before the cap |
| DownloadImages.SavedNamesShift | backend/download_images.py:57-62 | saving a file in front shifts the numbering of the rest by one |
| DownloadImages.DownloadFromNames | backend/download_images.py:41-62 | the i-th saved file is named after the i-th downloadable URL with the count plus i |
| DownloadImages.DownloadFromSaves | backend/download_images.py:41-62 | the i-th saved path is numbered from the count onward, with the i-th downloadable URL's extension; saving stops at the room left or at the first hit without an image key |
| DownloadImages.DownloadBounded | backend/download_images.py:41-43 | at most `max_images` files are saved per keyword |
| DownloadImages.SavedPathsDistinct | backend/download_images.py:57-62 | no two successful saves of one keyword share a path |
| DownloadImages.DownloadHits | backend/download_images.py:41-67 | the download loop saves exactly what `DownloadFrom` gives (see `DownloadFromSaves`), and aborts on a hit without an image key |
| DownloadImages.KeywordWithoutResults | backend/download_images.py:37-39 | a keyword without results saves nothing and ends as "no results" |
| DownloadImages.KeywordRun | backend/download_images.py:8-70 | the reference definition of one keyword's run: folder, search log, saved files and ending |
| DownloadImages.DownloadKeyword | backend/download_images.py:8-70 | one keyword's folder, searches, saved files and ending are those of `KeywordRun` |
| DownloadImages.DownloadAll | backend/download_images.py:7-70 | one report per keyword, in order, each that keyword's run |
| PrepareDataSplit.ClassDirs | backend/prepare_data_split.py:21 | an entry is kept exactly when it is a directory of the source |
| PrepareDataSplit.Classes | backend/prepare_data_split.py:21 | the names of the class sub-directories |
| PrepareDataSplit.ClassesAreSubdirectories | backend/prepare_data_split.py:21 | a name is a class exactly when the source holds a directory of that name |
| PrepareDataSplit.ClassDirsDistinct | backend/prepare_data_split.py:21 | class directories of a listing with distinct names have distinct names |
| PrepareDataSplit.ClassesDistinct | backend/prepare_data_split.py:21 | class names are distinct when the listing's names are |
| PrepareDataSplit.Suffix | backend/prepare_data_split.py:31 | `PurePath.suffix`: empty exactly when no dot follows the first character or the name ends with a dot; otherwise a proper tail of the name starting with its only dot |
| PrepareDataSplit.IsImageName | backend/prepare_data_split.py:31 | the definition of the image filter: the lower-cased suffix is `.jpg`, `.jpeg` or `.png` |
| PrepareDataSplit.SuffixIs | backend/prepare_data_split.py:31 | a name ending in `.jpg`, `.jpeg` or `.png` (any case) after a non-empty stem has that ending as its path suffix |
| PrepareDataSplit.IsImageNameIff | backend/prepare_data_split.py:31 | a file is an image exactly when its name ends in `.jpg`, `.jpeg` or `.png` in any case, after a non-empty stem |
| PrepareDataSplit.SuffixEnds | backend/prepare_data_split.py:31 | a name ends with its own suffix, ignoring case |
| PrepareDataSplit.Images | backend/prepare_data_split.py:31 | a name is an image exactly when the class directory holds a file of that name with an image suffix |
| PrepareDataSplit.Trunc | backend/prepare_data_split.py:34 | `int()` truncates toward zero: for a non-negative value it is the floor, for a negative one the ceiling |
| PrepareDataSplit.SplitIndex | backend/prepare_data_split.py:34 | for a non-negative ratio the index is the non-negative integer part of `n * ratio` |
| PrepareDataSplit.DefaultSplitIndex | backend/prepare_data_split.py:6 | with the default ratio 0.8 the split index is `4n / 5` rounded down |
| PrepareDataSplit.SplitIndexInRange | backend/prepare_data_split.py:34 | for a ratio in [0, 1] the split index is between 0 and the image count |
| PrepareDataSplit.SliceBound | backend/prepare_data_split.py:35-36 | a slice bound never exceeds the list length, and an index inside the list is kept as it is |
| PrepareDataSplit.TrainPart | backend/prepare_data_split.py:35 | train is a prefix of the shuffled list |
| PrepareDataSplit.ValPart | backend/prepare_data_split.py:36 | val is a suffix of the shuffled list |
| PrepareDataSplit.SplitPartitions | backend/prepare_data_split.py:34-36 | train followed by val is the shuffled list, their multisets add up to it, and for a ratio in [0, 1] train holds ⌊n·ratio⌋ images, with the product taken exactly |
| PrepareDataSplit.SplitKeepsImages | backend/prepare_data_split.py:31-36 | every image of the class lands in train or val, and only images do |
| PrepareDataSplit.SetOf | backend/prepare_data_split.py:24 | the set of the names in a list |
| PrepareDataSplit.DataDir.constructor | backend/prepare_data_split.py:15-19 | the output starts with no class in train or val |
| PrepareDataSplit.DataDir.CopyToTrain | backend/prepare_data_split.py:39-40 | train of the class holds exactly the given images, in order; other classes are unchanged |
| PrepareDataSplit.DataDir.CopyToVal | backend/prepare_data_split.py:42-43 | val of the class holds exactly the given images, in order; other classes are unchanged |
| PrepareDataSplit.DataDir.SplitClass | backend/prepare_data_split.py:26-43 | the class's train and val are the two parts of its shuffled images |
| PrepareDataSplit.UpdateKeepsEarlier | backend/prepare_data_split.py:24-43 | writing a new class's part keeps the parts already written for the earlier, distinct classes |
| PrepareDataSplit.DataDir.SplitClasses | backend/prepare_data_split.py:24-43 | the output holds exactly the given classes, each split from its own shuffle |
| PrepareDataSplit.DataDir.SplitDataset | backend/prepare_data_split.py:6-45 | the old output is discarded; train and val hold exactly the source's current classes, each split from its shuffled images |
| Text.LowerChar | backend/download_images.py:11 | maps upper-case ASCII letters to lower case and keeps every other character |
| Text.UpperChar | app.py:54-55 | maps lower-case ASCII letters to upper case and keeps every other character |
| Text.LowerUpperInverse | app.py:54-55 | lower-casing undoes upper-casing on letters |
| Text.Lower | backend/download_images.py:11 | lower-cases every character and keeps the length |
| Text.LowerIdempotent | backend/download_images.py:54 | lower-casing twice is lower-casing once |
| Text.LastIndex | backend/prepare_data_split.py:31 | the last position of the character, or -1 when absent |
| Text.TitleFrom | app.py:54-55 | title-casing keeps the length, which characters are letters, every non-letter, and every letter up to its case |
| Text.TitleCharKeepsLetter | app.py:54-55 | title-casing one character changes at most its case |
| Text.Title | app.py:54-55 | `str.title` keeps the length, every non-letter, and every letter up to its case |
| Text.TitleFromShape | app.py:54-55 | a letter is upper case exactly when it starts a word |
| Text.TitleFromIdempotent | app.py:54-55 | title-casing a title-cased string changes nothing |
| Text.TitleIdempotent | app.py:54-55 | `title` is idempotent |
| Text.TitleFromIgnoresCase | app.py:54-55 | title-casing does not depend on the input's case |
| Text.TitleIgnoresCase | app.py:54-55 | `title(lower(s)) == title(s)` |
| Text.DigitChar | backend/download_images.py:57 | a digit value maps to a digit character |
| Text.DigitValue | backend/download_images.py:57 | the value of a digit character, which maps back to that character |
| Text.Decimal | backend/download_images.py:57 | the canonical decimal digits of a number: non-empty, all digits, no leading zero |
| Text.ParseDecimalOfDecimal | backend/download_images.py:57 | parsing a number's digits gives the number back |
| Text.Zeros | backend/download_images.py:57 | `k` zero digits |
| Text.ParseIgnoresLeadingZero | backend/download_images.py:57 | one leading zero does not change the parsed value |
| Text.ParseIgnoresLeadingZeros | backend/download_images.py:57 | leading zeros do not change the parsed value |
| Text.ZeroPad | backend/download_images.py:57 | `{n:03d}`: all digits, at least the width long |
| Text.ZeroPadRoundTrip | backend/download_images.py:57 | parsing the padded digits gives the number back |
| Text.ZeroPadInjective | backend/download_images.py:57 | distinct counts give distinct padded numbers |
| Text.DecimalLength | backend/download_images.py:57 | `str(n)` has at most `k` digits exactly when `n < 10^k` |
| Text.ZeroPadWidth | backend/download_images.py:57 | `{n:03d}` is exactly three characters exactly when `n < 1000`; from 1000 on it is `str(n)` |
| Text.Contains | backend/download_images.py:54-55 | the definition of `pat in s`: a match at the start or further on |
| Text.OccursAtContains | backend/download_images.py:54-55 | an occurrence at any position makes `pat in s` true |
| Text.ContainsOccurs | backend/download_images.py:54-55 | when `pat in s` holds, it returns a position where `pat` occurs |
| Text.ContainsAt | backend/download_images.py:54-55 | `pat in s` holds exactly when `pat` occurs at some position of `s` |
| GradioApp.Names | app.py:37-40 | the keys of the probability dict, in insertion order |
| GradioApp.DictSet | app.py:40 | assigning a new key appends the pair; assigning an existing key keeps the keys and their order |
| GradioApp.DictSetDistinct | app.py:40 | assignment keeps the keys distinct |
| GradioApp.Above | app.py:38-40 | a pair is kept exactly when it is a class of the run scoring above 1% |
| GradioApp.ProbsDict | app.py:37-40 | the reference definition of the probability dict built by the first loop |
| GradioApp.ProbsDictShape | app.py:37-40 | the dict has distinct keys, holds only classes above 1%, and has a key for every class above 1% |
| GradioApp.ProbsDictIsAbove | app.py:37-40 | with distinct class names, the dict is exactly the classes above 1%, in class order |
| GradioApp.CollectProbs | app.py:37-40 | the first loop builds exactly the probability dict |
| GradioApp.Titled | app.py:54-55 | each line is the entry's confidence with its name title-cased |
| GradioApp.TitleLines | app.py:54-55 | the second loop renders one title-cased line per shown entry, in order |
| GradioApp.PredictLeaf | app.py:22-60 | no image gives the upload notice without running the model; a failing run gives "❌ Error: " and its message; a top-1 index without a name gives the KeyError text; otherwise the table is the dict sorted by confidence and the report shows the title-cased species, its confidence and the first five entries |
| GradioApp.ShownLines | app.py:43-55 | at most five lines, non-increasing, each above 1%, and no class left off the list scores above one shown |
| GradioApp.JoinComma | app.py:64 | joining no labels gives the empty string and joining one gives the label |
| GradioApp.TitleAll | app.py:64 | every label title-cased, in order |
| GradioApp.SplitComma | app.py:64 | splitting gives at least one item |
| GradioApp.LastComma | app.py:64 | in a join ending with a comma-free label, the last comma is the separator, with the earlier text before it and the label after its space |
| GradioApp.SplitLast | app.py:64 | splitting a join that ends with a comma-free label gives the split of the rest followed by the label |
| GradioApp.SplitJoin | app.py:64 | splitting a joined list of comma-free items gives the items back |
| GradioApp.TitleNoComma | app.py:64 | title-casing adds no comma |
| GradioApp.TrainedLabelsText | app.py:62-66 | the definition of `get_trained_labels_text` on the loaded labels |
| GradioApp.TrainedLabelsListed | app.py:62-66 | no labels gives the base-model message; otherwise the heading followed by the title-cased labels in order, recoverable by splitting at commas |

## Left out

- HTTP, the DuckDuckGo search and the YOLO classifier are not modelled. Each becomes an input: the reply to the page, the outcome of each search attempt, whether each image downloads, and the classifier run.
- Filesystem effects (`mkdir`, `rmtree`, `copy2`, writing image bytes) are not modelled. They are recorded as values: saved paths, and the `train`/`val` maps of `DataDir`.
- `random.shuffle` becomes a given permutation of each class's images.
- `time.sleep` is recorded as a `Slept` event. Console output (`print`, `console.error`) is dropped.
- Number formatting is not modelled. Percentages (`toFixed(1)`, `:.1f`) and the Markdown layout of the report stay as real numbers and structured fields.
- Case mapping (`lower`, `title`) is ASCII-only. Python's Unicode case tables are not modelled.
- Path joining is string concatenation with `/`. `pathlib` normalisation is not modelled.
- `Object.entries` puts integer-like keys first. The page model keeps `all_probs` in the order the server sent.
- Home.HomePage.ReceiveReply requires a request to be in flight. A second request while one is pending cannot be started, because both buttons are disabled while loading. So replies arriving out of order are not modelled.
- The camera button and the navigation to the training page have no state to model.
- At start-up `app.py` loads the weights file and the labels JSON. Those loads are not modelled: the labels are a parameter of `TrainedLabelsText`.
- The training page, the server `backend/app.py`, `sync_to_repo.py`, `train_yolo.py`, `prediction.py` and the test scripts are not part of this model.
- PrepareDataSplit.SplitIndex computes `int(n * ratio)` on exact reals. Python multiplies two floats and may round the product down below an integer: with ratio 0.57 and 100 images Python gets 56.99999999999999, so index 56, where the model gives 57. Floating-point rounding is not modelled. The model agrees with Python only for ratios whose products are exact, as for the default 0.8.
- PrepareDataSplit.SplitPartitions states the train size as ⌊n·ratio⌋ of the exact product, with the same caveat about floating-point rounding.
- Ranking.SortDesc follows the code: ties keep their input order, because neither the page's `sort` nor `sorted(..., reverse=True)` compares names and both sorts are stable.
