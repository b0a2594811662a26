# Hackers fashion files — a Dafny model of the categoriser

The Hackers fashion-files tool reads an Excel workbook with one sheet per character. Each row of a sheet describes one outfit: its `ID`, `TYPE` and `CAPTION`. For each complete row the tool:

- looks at the entry's image directory `<images>/<character>/<type>/<id>` (lower-cased),
- sorts the files it finds there into the direction buckets `front`, `right`, `back`, `left` and an overflow bucket `extra`,
- renders an HTML fragment that shows the caption and the images in the order front, right, back, left, extra,
- writes that fragment to `<output>/<Character>/<id>.txt`.

This project models the core of that process in `src/main/python/hackers_curator/fashion_files.py`:

- `dataframe_to_fashion_entries`: rows to entries.
- `categorize_and_merge_image_path`: one file offered to one bucket.
- `get_image_paths`: one directory sorted into buckets.
- The flattening loop of `render_fashion_entry_html`.
- The naming of the output directory and file.

Files:

- `wrappers.dfy` holds the `Option` type used for nullable spreadsheet cells.
- `text.dfy` (module `Text`) models the Python string and path operations the code relies on: `str.lower`, `str.capitalize`, `str.startswith`, `str.endswith`, `str.rfind`, `str.format` with `{}` placeholders, and `PurePath.name` and `PurePath.stem`.
- `fashion_files.dfy` (module `FashionFiles`) holds the model itself.

The categorised dictionary, which the source updates in place, is the class `CategorizedImagePaths`. Its one field is a map from `Category` to links. The source's in-place updates and loops are methods: `DataframeToFashionEntries` and `RenderFashionEntryHtml` keep their loops, `CategorizeAndMergeImagePath` updates the dictionary in place, and `GetImagePaths` keeps both of its loops. Each is proved equal to a specification function: `FashionEntries`, `Merge`, `ImagePaths` and `Flatten`. The properties are lemmas about those functions.

Two details of the code shape the result. Both are modelled as written:

- **The link drops the file name.** The template `'../gfx/{}/{}/{}.gif'` has three placeholders for four arguments, so the fourth, `image_path.name`, is silently ignored. So every file of an entry receives the same link, `../gfx/<character>/<type>/<id>.gif`, with the character and type in their original case. The link's stem is therefore the entry id, not the file name. A file is filed under a direction when the lower-cased id starts with that direction's label, whatever the file is called.
- **The trailing `S` test has no effect.** `if not image_path.stem.endswith('S'): pass` is dead code, so no trailing `S` is required and a stem ending in `S` is filed like any other.

A consequence: an entry `A1` whose directory holds `frontS.png`, `rightS.png` and so on gets an empty dictionary, because `a1` starts with no direction (`UnmatchedIdFilesNothing`). When the id does start with a direction, the following holds for a directory of `n ≥ 1` files (a missing or empty directory gives the empty dictionary):

- that direction holds the link once;
- `extra` holds it `n − 1` times;
- the rendered fragment shows it `n` times.

## Model

| member | source | states |
|---|---|---|
| FashionFiles.FashionEntry | src/main/python/hackers_curator/fashion_files.py:56-63 | Definition: the record of one outfit, its `id`, `type` (here `kind`) and `caption`, all strings. |
| FashionFiles.DataframeToFashionEntries | src/main/python/hackers_curator/fashion_files.py:84-91 | The loop over the rows returns exactly `FashionEntries(dataframe)`: the entries of the complete rows, in order. |
| FashionFiles.Cell | src/main/python/hackers_curator/fashion_files.py:87 | Definition: `row.get(column, None)`, the cell of a column the row has, and null for a column it lacks. |
| FashionFiles.HasRequiredCells | src/main/python/hackers_curator/fashion_files.py:87-88 | Definition: the `ID`, `TYPE` and `CAPTION` cells are all non-null. |
| FashionFiles.EntryOf | src/main/python/hackers_curator/fashion_files.py:89 | Definition: the entry whose id, type and caption are the row's `ID`, `TYPE` and `CAPTION` cells, unchanged. Only complete rows can be passed. |
| FashionFiles.FashionEntries | src/main/python/hackers_curator/fashion_files.py:84-91 | Filtering never yields more entries than there are rows. |
| FashionFiles.KeptRowIndices | src/main/python/hackers_curator/fashion_files.py:87-88 | The kept positions are strictly increasing. Each one is a row whose `ID`, `TYPE` and `CAPTION` are all non-null, and every such row is kept. A missing column reads as null. |
| FashionFiles.FashionEntriesFollowKeptRows | src/main/python/hackers_curator/fashion_files.py:86-90 | There is one entry per complete row. The k-th entry copies the cells of the k-th complete row verbatim. |
| FashionFiles.FashionEntriesConcat | src/main/python/hackers_curator/fashion_files.py:86-90 | Filtering distributes over concatenation of sheets: each row is judged on its own. |
| FashionFiles.CategorizedImagePaths | src/main/python/hackers_curator/fashion_files.py:114 | Definition: the dictionary `image_paths = {}` as an object whose one field, from category to links, is updated in place; its constructor starts it empty. |
| FashionFiles.Label | src/main/python/hackers_curator/fashion_files.py:105-139 | Definition: the key strings `front`, `right`, `back`, `left` (line 113) and `extra` (lines 105 and 139), each also the prefix a stem must have to be filed under it. |
| FashionFiles.Lookup | src/main/python/hackers_curator/fashion_files.py:142 | Definition: `image_paths.get(category, [])`, the bucket of a present key and `[]` for an absent one. |
| FashionFiles.LowerStem | src/main/python/hackers_curator/fashion_files.py:101 | Definition: `image_path.stem.lower()`. |
| FashionFiles.Place | src/main/python/hackers_curator/fashion_files.py:101-105 | Definition: for a link with lower-cased stem `lowerStem`, no match leaves the dictionary as it is; a match on an absent category sets it to `[link]`; a match on a present category appends the link to `extra`, creating `extra` when absent. |
| FashionFiles.Merge | src/main/python/hackers_curator/fashion_files.py:94-105 | Definition: `Place` with the link's own lower-cased stem, i.e. one call of `categorize_and_merge_image_path` as a function of the dictionary. `MergeEffect` states its outcomes. |
| FashionFiles.MergeEffect | src/main/python/hackers_curator/fashion_files.py:101-105 | If the lower-cased stem does not start with the category, the dictionary is unchanged. On the first match the category gets `[path]` and no other key changes. On a later match the category is kept, `path` is appended to `extra`, and no other key changes. Every direction keeps exactly one link. |
| FashionFiles.CategorizeAndMergeImagePath | src/main/python/hackers_curator/fashion_files.py:94-105 | The in-place update leaves the dictionary equal to `Merge` of its old value. |
| FashionFiles.TrailingSHasNoEffect | src/main/python/hackers_curator/fashion_files.py:99-101 | A stem ending in `S` and the same stem ending in `s` give the same keys and bucket sizes. The `S` test changes nothing. |
| FashionFiles.TrailingSStems | src/main/python/hackers_curator/fashion_files.py:99-101 | One stem ends with `S` and the other does not, yet their lower-cased stems are equal. |
| FashionFiles.MergeSeesOnlyTheStem | src/main/python/hackers_curator/fashion_files.py:101-105 | Filing depends on the link only through its lower-cased stem: two links whose lower-cased stems agree give equal keys and equal bucket sizes. |
| FashionFiles.Join | src/main/python/hackers_curator/fashion_files.py:115-117 | Definition: `Path / name` on component lists: a non-empty name is appended as one component, and an empty name leaves the path as it is. |
| FashionFiles.EntryImageDirectory | src/main/python/hackers_curator/fashion_files.py:115-117 | Definition: the parent joined with the lower-cased character, type and id, an empty name adding no component. |
| FashionFiles.EntryImageDirectoryIgnoresCase | src/main/python/hackers_curator/fashion_files.py:115-117 | Characters, types and ids equal up to case look in the same image directory. |
| FashionFiles.EntryImageDirectoryComponents | src/main/python/hackers_curator/fashion_files.py:115-117 | With non-empty names, the directory is the parent plus exactly three components, none holding an upper-case letter. |
| FashionFiles.ImageLinkOf | src/main/python/hackers_curator/fashion_files.py:121-124 | Definition: the template `'../gfx/{}/{}/{}.gif'` formatted with the character, the type, the id and the file name, in that order. `ImageLinkIgnoresFileName` gives its value. |
| Text.Format | src/main/python/hackers_curator/fashion_files.py:122-123 | Definition: `str.format` with `{}` placeholders, the literal pieces interleaved with the arguments in order. Missing arguments are excluded by its precondition, as Python raises for them. |
| FashionFiles.EntryLink | src/main/python/hackers_curator/fashion_files.py:121-124 | Definition: `../gfx/<character>/<type>/<id>.gif`, the value every link of the entry takes (`ImageLinkIgnoresFileName`). |
| FashionFiles.ImageLinkIgnoresFileName | src/main/python/hackers_curator/fashion_files.py:121-124 | The link built for any file is `../gfx/<character>/<type>/<id>.gif`. The file name never reaches it. |
| Text.FormatIgnoresSurplusArguments | src/main/python/hackers_curator/fashion_files.py:122-123 | Arguments beyond the template's placeholders do not change the formatted text. |
| FashionFiles.AtMostOneDirectionMatches | src/main/python/hackers_curator/fashion_files.py:113 | No stem starts with two of the four direction labels. |
| FashionFiles.MergeCategories | src/main/python/hackers_curator/fashion_files.py:125-130 | Definition: the inner `for category in categories` loop, one link offered to each given category in turn, as successive `Place`s. |
| FashionFiles.MergeCategoriesKeepsOthers | src/main/python/hackers_curator/fashion_files.py:125-130 | Offering a link to other categories leaves a direction's membership and bucket unchanged. |
| FashionFiles.MergeCategoriesOwn | src/main/python/hackers_curator/fashion_files.py:125-130 | After the four offers, a direction is present exactly when it was before or its label matches. It holds `[link]` if it was newly filled; otherwise its bucket is unchanged. |
| FashionFiles.MergeCategoriesExtra | src/main/python/hackers_curator/fashion_files.py:125-130 | `extra` grows by one copy of the link per matching direction that was already present, appended at the end. It is present exactly when it was before or grew. |
| FashionFiles.DemotedCount | src/main/python/hackers_curator/fashion_files.py:102-105 | If the matching directions are all present, every match is demoted to `extra`. If none are present, no match is. |
| FashionFiles.CategorizedStep | src/main/python/hackers_curator/fashion_files.py:120-130 | Each further file keeps the invariant: matched directions hold `[link]`, others are absent, and `extra` holds `(files − 1) × matches` copies. |
| FashionFiles.CategorizedStepDirections | src/main/python/hackers_curator/fashion_files.py:125-130 | After one more file, each direction is present exactly when its label matches, and then holds only the link. |
| FashionFiles.CategorizedStepExtra | src/main/python/hackers_curator/fashion_files.py:125-130 | After one more file, `extra` holds `files × matches` copies of the link. |
| FashionFiles.CategorizeUnderDirections | src/main/python/hackers_curator/fashion_files.py:125-130 | The inner loop leaves the dictionary equal to the four successive merges of the link. |
| FashionFiles.MergeDirectoryCategorized | src/main/python/hackers_curator/fashion_files.py:120-130 | For any listing, the result meets the invariant above with the number of files in the listing. |
| FashionFiles.MergeDirectory | src/main/python/hackers_curator/fashion_files.py:120-130 | Definition: starting from the empty dictionary, each file of the listing in turn has its link offered to front, right, back and left. `MergeDirectoryCategorized` gives its closed form. |
| FashionFiles.MergeDirectoryStep | src/main/python/hackers_curator/fashion_files.py:120-130 | Loop-proof helper for `GetImagePaths`: the prefix of the listing one file longer is one more round of the four directions. |
| FashionFiles.ImagePaths | src/main/python/hackers_curator/fashion_files.py:113-131 | Definition: the empty dictionary when the entry's image directory does not exist, otherwise `MergeDirectory` of its listing. `ImagePathsShape` gives its closed form. |
| FashionFiles.GetImagePaths | src/main/python/hackers_curator/fashion_files.py:108-131 | The method returns a fresh dictionary equal to `ImagePaths`. That is empty for a missing directory, and otherwise every listed file is merged in listing order. |
| FashionFiles.ImagePathsShape | src/main/python/hackers_curator/fashion_files.py:113-131 | For a missing or empty directory the result is the empty map. Otherwise each matched direction holds exactly one link, the others are absent, and `extra` holds `(files − 1) × matches` copies of the link. |
| FashionFiles.EntryLinkStem | src/main/python/hackers_curator/fashion_files.py:101-124 | For an id without `/`, dots included, the lower-cased stem of the link is the lower-cased id. For an empty id it is `.gif`. |
| FashionFiles.EntryLinkLabels | src/main/python/hackers_curator/fashion_files.py:101-124 | For an id without `/`, the link's stem starts with a label exactly when the lower-cased id does. |
| FashionFiles.CategorizedByLabels | src/main/python/hackers_curator/fashion_files.py:101 | The invariant depends on the stem only through the labels it starts with. |
| FashionFiles.LabelsMatchedAgree | src/main/python/hackers_curator/fashion_files.py:101 | Two names that start with the same labels match the same number of them. |
| FashionFiles.ExtraBucketSize | src/main/python/hackers_curator/fashion_files.py:118-130 | For an id without `/`, a direction is present exactly when there are files and the lower-cased id starts with its label. `extra` has length `(files − 1) × matches`. |
| FashionFiles.UnmatchedIdFilesNothing | src/main/python/hackers_curator/fashion_files.py:118-130 | For an id without `/`: if the lower-cased id starts with no direction, the result is the empty map whatever files the directory holds. |
| FashionFiles.NoDirectionMatched | src/main/python/hackers_curator/fashion_files.py:113 | A name that starts with none of the four direction labels matches none of them. |
| FashionFiles.CategoryOrder | src/main/python/hackers_curator/fashion_files.py:139 | Definition: `front`, `right`, `back`, `left`, then `extra`, the order in which the fragment shows the buckets. |
| FashionFiles.Flatten | src/main/python/hackers_curator/fashion_files.py:140-142 | Definition: the buckets of the given categories concatenated in order, an absent key giving `[]` as `get(category, [])` does. |
| FashionFiles.FlattenInCategoryOrder | src/main/python/hackers_curator/fashion_files.py:139-142 | The flattened list is front, right, back, left and extra concatenated in that order, with absent keys adding nothing. Its length is the sum of the five bucket lengths. |
| FashionFiles.FlattenMembers | src/main/python/hackers_curator/fashion_files.py:141-142 | A link is in the flattened list exactly when it is in one of the listed buckets. |
| FashionFiles.FlattenCategorizedDirections | src/main/python/hackers_curator/fashion_files.py:139-142 | On categorised buckets, the direction buckets flatten to one copy of the link per matched direction, or to nothing when there are no files. |
| FashionFiles.FlattenCategorized | src/main/python/hackers_curator/fashion_files.py:139-142 | Categorised buckets flatten to `files × matches` copies of the link. |
| FashionFiles.RenderedImageSources | src/main/python/hackers_curator/fashion_files.py:113-142 | For an id without `/`, the fragment's image list is the entry's one link repeated `files × matches` times. |
| FashionFiles.RenderFashionEntryHtml | src/main/python/hackers_curator/fashion_files.py:134-157 | The fragment carries the entry's caption and exactly the flattened buckets, in category order. |
| FashionFiles.RepeatConcat | src/main/python/hackers_curator/fashion_files.py:105 | Repeated appends of one link concatenate: `m` copies followed by `n` copies is `m + n` copies. |
| FashionFiles.EntryOutputPath | src/main/python/hackers_curator/fashion_files.py:42-51 | The file is `<id>.txt` inside `output / character.capitalize()`. |
| FashionFiles.OutputPathsCollideExactlyOnId | src/main/python/hackers_curator/fashion_files.py:51 | On component-list paths, and so for ids without `/` or `.` components, two entries of one character get the same output path exactly when their ids are equal. |
| FashionFiles.OutputDirectoryIgnoresCase | src/main/python/hackers_curator/fashion_files.py:42 | Sheet names that are equal up to case share one output directory. |
| Text.Capitalize | src/main/python/hackers_curator/fashion_files.py:42 | The result has the same length and the same letters up to case. Its first character is not lower-case and the rest are not upper-case. |
| Text.CapitalizeIgnoresCase | src/main/python/hackers_curator/fashion_files.py:42 | Strings equal up to case capitalise alike. |
| Text.Lower | src/main/python/hackers_curator/fashion_files.py:101 | `str.lower` on ASCII: same length, each upper-case letter replaced by its lower-case one. |
| Text.EndsWith | src/main/python/hackers_curator/fashion_files.py:99 | Definition: `str.endswith`, the suffix fits and the string's last characters are the suffix. |
| Text.StartsWith | src/main/python/hackers_curator/fashion_files.py:101 | Definition: `str.startswith`, compared character by character. |
| Text.StartsWithIsPrefix | src/main/python/hackers_curator/fashion_files.py:101 | The character-by-character definition agrees with the slice one: the prefix fits in the string and the string begins with it. |
| Text.Name | src/main/python/hackers_curator/fashion_files.py:99-101 | Definition: `PurePath.name`, the characters after the last `/`. |
| Text.NameIsLastComponent | src/main/python/hackers_curator/fashion_files.py:99-101 | The name is a suffix of the path holding no `/`, and is either the whole path or follows a `/`. |
| Text.Stem | src/main/python/hackers_curator/fashion_files.py:99-101 | Definition: `PurePath.stem`, the name without its last suffix, where a dot that starts or ends the name does not begin a suffix. |
| Text.StemOfFileName | src/main/python/hackers_curator/fashion_files.py:99-101 | The stem of `dir/base.ext`, for a base without `/` and an extension without `/` or `.`, is `base` when the base is non-empty (dots inside it stay), and `.ext` when it is empty. |
| Text.NameAfterLastSeparator | src/main/python/hackers_curator/fashion_files.py:99-101 | The name of `dir/name` is `name` when `name` holds no separator. |
| Text.LastIndexOf | src/main/python/hackers_curator/fashion_files.py:99-101 | The result is the last index holding the character, or −1 when there is none. |

## Left out

- Command-line handling is not modelled: the `click` options, the loop over sheets, the `print` of the entries, and `mkdirs_safe` with its error handling. These are I/O.
- Reading the workbook (`pandas.read_excel`) is not modelled. A sheet is a sequence of rows, each a map from column name to an optional cell. `None` stands for anything `pandas.notnull` rejects, including NaN. Cells are taken to be strings.
- The file system is an input, not something the model reads. It maps each existing directory, as a list of path components, to its listing in `iterdir` order. `is_dir` becomes membership in that map. Writing the output file is not modelled.
- The Jinja template and its HTML escaping are not modelled. `RenderFashionEntryHtml` stops at what the template receives: the caption and the ordered image sources.
- Case mapping covers ASCII letters only. Python's Unicode `lower` and `capitalize` are not modelled.
- Path normalisation is not modelled: doubled or trailing separators, `.` components, and ids that contain `/` or consist of `.` or `..`. A character, type or id containing `/` becomes several components under `Path /`, while `Join` keeps it as one. Paths are lists of components, and `Join` drops an empty name as `Path / ''` does.
- The entry field `type` is called `kind`, because `type` is a Dafny keyword.
- Dictionary keys are the datatype `Category` rather than strings. Keys other than the five labels therefore cannot arise, by construction.
- The inner `for category in categories` loop of `get_image_paths` is the separate method `CategorizeUnderDirections`, which `GetImagePaths` calls once per file.
- RenderedImageSources: stated only for ids without `/`. For an id with a `/`, the link's stem is only the part after the last `/`.
- ExtraBucketSize: stated only for ids without `/`, for the same reason. `ImagePathsShape` covers every id in terms of the link's stem.
- OutputPathsCollideExactlyOnId: holds for paths as component lists and states equality of paths, not of files. Under pathlib's normalisation, ids such as `./x` and `x`, or `a//b` and `a/b`, name the same file although they differ; on a case-insensitive file system (the default on macOS and Windows) ids equal up to case, such as `A1` and `a1`, also overwrite one file.
- Repeat: its contract states only the length. Its contents follow from the definition and from `RepeatConcat`.
