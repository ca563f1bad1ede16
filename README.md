# EXIF Cleaner core, modelled in Dafny

EXIF Cleaner is a desktop tool that removes EXIF metadata from JPEG, PNG and WEBP images, one file
at a time or in batches. It can remove all of the EXIF data or only the tags with given names.
This project models the tool's non-graphical core and proves properties of it:

- `ExifProcessing` (`exif_processor.py`):
  - dispatch on the lower-cased `os.path.splitext` extension;
  - `has_exif`;
  - `get_exif_info`, which flattens the decoded EXIF dictionary to tag name → value (thumbnail skipped, later IFDs overwrite earlier ones);
  - `remove_all_exif`;
  - `remove_selected_exif`, which deletes in place every tag whose name is listed, in every IFD but the thumbnail;
  - `batch_process`, with its progress reports.
- `FileHandling` (`file_handler.py`):
  - the supported-format test (lower-cased pathlib suffix);
  - `get_image_files` (recursive `os.walk` or a flat `os.listdir`);
  - the two path validators;
  - `get_file_info` and `batch_get_file_info`.
- `Versioning` (`version_manager.py`):
  - the version record with its fallback defaults and its getters;
  - `parse_version`, `compare_versions` (zero padding, first difference decides) and `is_newer_version`;
  - `get_version_info` and `update_version_file`.
- `UpdateChecking` (`update_checker.py`):
  - the GitHub "latest release" API address derived from the repository URL;
  - the outcome of one check, as a function of how the HTTP request ended;
  - the `UpdateChecker` class, whose report cache makes every later call return the first report without another request.
- `Agreement`: how the file handler's notion of "supported" relates to the processor's dispatch.
- `Strings`, `Paths` and `Wrappers` model the Python built-ins the core relies on:
  - `str.lower` (ASCII), `split`, `join`, `lstrip`, `in`, `int` and `str`;
  - `os.path.join`, `basename` and `splitext`, and pathlib's `name`/`suffix`, for '/'-separated paths;
  - Option and Result types.

Calls into piexif, Pillow, the file system and the network are not modelled. What they report is
passed in as a value, for example:

- an `ImageFile` holds the outcomes of `piexif.load(path)` and `Image.open(path)`;
- a `Folder` holds what `exists`/`isfile`/`isdir`/`listdir`/`walk` report;
- a `Fetch` holds how the HTTP request ended.

Exceptions become `Result` values or `Failed`/`Failure`/`InfoError` constructors that carry the
exception text.

piexif returns the decoded EXIF dictionary as a Python dict of dicts. The model keeps it as an
insertion-ordered list of directories, each an ordered list of tags. Order is kept because "the
later IFD wins" in `get_exif_info` depends on the dict's iteration order.

Every file the folder scan offers ought to be one the processor handles. For ordinary names it
is (`Agreement.ScanAndDispatchAgree`). For names whose stem is all dots it is not. For `..jpg`,
the folder scan accepts the file because pathlib's suffix is `.jpg`. The processor then refuses
it because `splitext` gives no extension (`Agreement.LeadingDotsDisagree`).

The pathlib rules modelled are those of CPython up to 3.13: `PurePath.suffix` is the text from
the name's last '.', provided that dot is neither its first nor its last character. Later
releases reworked `suffix` for names with leading or trailing dots. Under those rules `..jpg`
may get a different suffix, so the disagreement above is stated for the 3.13 rule.

## Model

| member | source | states |
|---|---|---|
| ExifProcessing.Classify | src/exif_processor.py:43-45 | .jpg/.jpeg/.webp (after lower-casing the path) go through piexif, .png is handled as PNG, everything else is unsupported |
| ExifProcessing.ClassifyIgnoresCase | src/exif_processor.py:43 | a path and its lower-cased form get the same extension and the same treatment |
| ExifProcessing.ClassifyByExtension | src/exif_processor.py:43 | for a name `stem + ext` the extension seen is `ext` lower-cased, whatever its case |
| ExifProcessing.OutputTarget | src/exif_processor.py:117 | a missing or empty output path means the input file is overwritten; otherwise the output path is used |
| ExifProcessing.Save | src/exif_processor.py:172 | a save succeeds exactly when Pillow's save raises nothing, and then it is the requested save; otherwise it fails with the exception's text |
| ExifProcessing.HasExif | src/exif_processor.py:34-62 | JPEG/WEBP: true iff piexif loads the file and some IFD other than the thumbnail is non-empty; PNG: true iff the image opens and has an `exif` entry; otherwise false |
| ExifProcessing.FlattenTags | src/exif_processor.py:81-86 | the nested loops build exactly the flattened name → value dictionary |
| ExifProcessing.GetExifInfo | src/exif_processor.py:64-104 | unsupported: empty; JPEG/WEBP: the flattened tags or only the load error; PNG: empty without a non-empty `exif` chunk, else the flattened chunk or only the error |
| ExifProcessing.AddTagsKeys | src/exif_processor.py:83-86 | after adding a directory's tags, a name is present iff it was before or some added tag carries it |
| ExifProcessing.AddTagsElsewhere | src/exif_processor.py:83-86 | adding tags with other names leaves a name's entry unchanged |
| ExifProcessing.AddTagsLastWins | src/exif_processor.py:83-86 | the last tag with a given name supplies that name's value |
| ExifProcessing.Flatten | src/exif_processor.py:81-86 | a dictionary holding nothing but the thumbnail reads as empty |
| ExifProcessing.FlattenKeys | src/exif_processor.py:81-86 | the flattened names are exactly the names of tags in IFDs other than the thumbnail |
| ExifProcessing.LaterDirectoryWins | src/exif_processor.py:81-86 | a directory read later decides the value of every name it holds |
| ExifProcessing.EarlierValueSurvives | src/exif_processor.py:81-86 | a name a later directory does not hold keeps its earlier value |
| ExifProcessing.FlattenIgnoresThumbnail | src/exif_processor.py:82 | the thumbnail's contents never affect the flattened dictionary |
| ExifProcessing.HasTagsIffInfo | src/exif_processor.py:49-52 | `has_exif`'s test holds exactly when `get_exif_info`'s dictionary is non-empty |
| ExifProcessing.Without | src/exif_processor.py:162-167 | keeping the unselected elements never makes a list longer |
| ExifProcessing.DeleteWhere | src/exif_processor.py:162-167 | deleting selected tags in place from a snapshot of the keys leaves exactly the unselected tags, in order |
| ExifProcessing.Stripped | src/exif_processor.py:159-167 | the strip keeps the number of directories |
| ExifProcessing.StripTags | src/exif_processor.py:159-167 | the nested loops produce exactly the stripped dictionary |
| ExifProcessing.KeptMembers | src/exif_processor.py:162-167 | a tag survives iff it was present and its name is not in the removal list |
| ExifProcessing.StrippedDirectory | src/exif_processor.py:159-167 | each directory keeps its IFD name, the thumbnail is untouched, and exactly the listed names disappear from the others |
| ExifProcessing.KeptIdempotent | src/exif_processor.py:162-167 | keeping twice is keeping once |
| ExifProcessing.StripIdempotent | src/exif_processor.py:159-167 | stripping the same names twice is stripping them once |
| ExifProcessing.AddKeptAgrees | src/exif_processor.py:162-167 | for a name not removed, reading the kept tags gives what reading all the tags gives |
| ExifProcessing.AddKeptOmits | src/exif_processor.py:162-167 | a removed name is never introduced by reading the kept tags |
| ExifProcessing.FlattenStrippedAt | src/exif_processor.py:159-167 | after the strip a removed name is absent and any other name reads as before |
| ExifProcessing.InfoAfterStrip | src/exif_processor.py:159-167 | reading the stripped dictionary gives the original reading minus exactly the removed names |
| ExifProcessing.RemoveAllExif | src/exif_processor.py:106-136 | succeeds iff the format is handled, the image opens and the save succeeds; a success writes to the output target, JPEG/WEBP with `exif=b''` in the image's own format, PNG with `exif=None` as PNG; a failed open gives its error text, and a failed save gives the save's error text; unsupported gives "不支持的格式: " + extension |
| ExifProcessing.SelectedRemoval | src/exif_processor.py:138-204 | a success writes to the output target; JPEG/WEBP re-save a dumped dictionary in the image's format, PNG saves as PNG and, without a non-empty chunk, without EXIF; a failed open gives its error text; a non-empty chunk piexif cannot decode fails with piexif's error text; unsupported gives "不支持的格式: " + extension; with a readable chunk it succeeds iff the save does, a failed save gives the save's error text, and a success writes exactly the chunk's dictionary with the named tags stripped, and only then writes a dumped dictionary |
| ExifProcessing.RemoveSelectedExif | src/exif_processor.py:138-204 | equals the selective-removal outcome: open, decode the chunk (an absent JPEG chunk fails in piexif), strip, save with the dumped result; PNG without a chunk is re-saved without EXIF |
| ExifProcessing.SelectedRemovalWritesNoRemovedNames | src/exif_processor.py:152-196 | whatever EXIF a successful selective removal writes holds no removed name outside the thumbnail |
| ExifProcessing.SelectedRemovalKeepsOthers | src/exif_processor.py:152-196 | what a successful selective removal writes reads as the decoded chunk minus exactly the removed names, so every other tag keeps its value |
| ExifProcessing.SelectedRemovalNeedsChunk | src/exif_processor.py:156 | a JPEG/WEBP image without an EXIF chunk fails with piexif's error for the empty input |
| ExifProcessing.BatchProcess | src/exif_processor.py:206-245 | one result per file, in order, each the outcome of "all" or selective removal (missing tag list = empty); progress (i+1)/n·100 after each file only when a callback is given and n > 0 |
| ExifProcessing.ProcessOne | src/exif_processor.py:223-228 | a batch success always overwrites the file itself; "all" writes empty or no EXIF, any other type writes a dumped dictionary or none, and with a readable chunk exactly that chunk with `tags or []` stripped; unsupported files fail with their message |
| ExifProcessing.ProgressIncreases | src/exif_processor.py:241-243 | progress reports strictly increase and stay within (0, 100] |
| ExifProcessing.ProgressEndsAtHundred | src/exif_processor.py:242 | the last report is exactly 100 |
| FileHandling.IsSupportedImage | src/file_handler.py:111-121 | a supported name is a real file name, neither empty nor "." |
| FileHandling.SupportedByExtension | src/file_handler.py:111-121 | a plain name `stem + ext` is supported iff `ext` lower-cased is one of .jpg .jpeg .png .webp |
| FileHandling.SupportedUnderDirectory | src/file_handler.py:100-101 | a file name is supported iff the path joined under any directory is |
| FileHandling.GetImageFiles | src/file_handler.py:81-109 | missing folder: empty; recursive: the supported files of every walk step joined to its directory, in walk order; flat: the supported regular files of the listing, or the listing's error |
| FileHandling.CollectWalk | src/file_handler.py:98-101 | the walk loops collect exactly the wanted files of every step, in order |
| FileHandling.CollectListing | src/file_handler.py:104-107 | the listing loop collects exactly the wanted regular files, in order |
| FileHandling.StepImagesMembers | src/file_handler.py:99-101 | a path is collected from a step iff it joins a wanted file of that step |
| FileHandling.WalkImagesMembers | src/file_handler.py:98-101 | a path is collected from a walk iff it joins a wanted file of one of its steps |
| FileHandling.ListedImagesMembers | src/file_handler.py:104-107 | a path is collected from a listing iff it joins a wanted regular file of it |
| FileHandling.ListedImagesAppend | src/file_handler.py:104-107 | listing order is kept: a concatenated listing yields the concatenated results |
| FileHandling.ImageFilesAreSupported | src/file_handler.py:91-109 | every path `get_image_files` returns names a supported image |
| FileHandling.ValidateFilePath | src/file_handler.py:123-141 | valid iff the path exists, is a file and is supported; otherwise the first failing check's message |
| FileHandling.ValidateFolderPath | src/file_handler.py:143-163 | valid iff the path exists, is a directory and directly holds a supported regular file; otherwise the first failing check's own message: missing, not a folder, or no supported images; a listing error propagates |
| FileHandling.GetFileInfo | src/file_handler.py:165-188 | error iff the size lookup fails, and then the record holds that error's text; otherwise the path as given, its base name, the looked-up size, and the lower-cased pathlib suffix, which is a supported format iff the path is supported |
| FileHandling.GetFileInfoOfJoined | src/file_handler.py:165-188 | for `stem + ext` joined under any directory: name `stem + ext`, that path, the size, and extension `ext` lower-cased |
| FileHandling.BatchGetFileInfo | src/file_handler.py:190-202 | one record per path, in order, each that path's `get_file_info` |
| Paths.Basename | src/file_handler.py:176 | the base name is the tail of the path after its last '/': a separator-free suffix that is the whole path or follows a '/' |
| Paths.BasenameUnique | src/file_handler.py:176 | that description determines the base name: any separator-free tail that is the whole path or follows a '/' is it |
| Paths.BasenameOfJoin | src/file_handler.py:176 | a plain file name joined under any directory is the base name of the result |
| Paths.PathJoin | src/file_handler.py:101 | an absolute second part replaces the first; otherwise the result is at least as long as both parts together |
| Paths.JoinEnds | src/file_handler.py:105 | a joined path ends with its second part and, for a relative second part, starts with the first |
| Paths.JoinKeepsName | src/file_handler.py:101 | the pathlib name of `join(dir, file)` is `file` for a plain file name |
| Paths.PathName | src/file_handler.py:120 | a pathlib name is empty or one of the path's '/'-separated pieces |
| Paths.PathNameOfPlain | src/file_handler.py:120 | a plain file name is its own pathlib name |
| Paths.PathNameShape | src/file_handler.py:120 | a pathlib name holds no '/' and is not "." |
| Paths.Suffix | src/file_handler.py:120 | a pathlib suffix (CPython 3.13 rule) is empty or a dot followed by at least one character |
| Paths.SuffixOfAppended | src/file_handler.py:120 | the suffix of `stem + ext` is `ext` when `ext` is a dot and dot-free text |
| Paths.SplitExt | src/exif_processor.py:43 | a splitext extension is empty or starts with a dot |
| Paths.SplitExtOfAppended | src/exif_processor.py:43 | the splitext extension of `stem + ext` is `ext` when the stem does not end in '.' or '/' |
| Strings.Lower | src/exif_processor.py:43 | lower-casing keeps the length |
| Strings.LowerAt | src/exif_processor.py:43 | lower-casing works character by character |
| Strings.LowerAppend | src/exif_processor.py:43 | lower-casing distributes over concatenation |
| Strings.LowerIdempotent | src/file_handler.py:120 | lower-casing twice is lower-casing once |
| Strings.Split | src/version_manager.py:111 | `split` always yields at least one piece |
| Strings.SplitPieces | src/update_checker.py:52 | no piece of a split holds the separator |
| Strings.SplitAppend | src/update_checker.py:52 | splitting `a + sep + b` splits `a` and `b` independently |
| Strings.SplitNoSeparator | src/update_checker.py:52 | a string without the separator is one piece |
| Strings.SplitJoin | src/version_manager.py:111 | splitting a join gives back separator-free pieces |
| Strings.JoinSplit | src/version_manager.py:111 | joining a split gives back the string |
| Strings.Contains | src/update_checker.py:50 | `p in s` holds iff `p` occurs in `s` at some index |
| Strings.ContainsInfix | src/update_checker.py:50 | a string contains every infix |
| Strings.LStrip | src/update_checker.py:94 | `lstrip('v')` drops exactly the leading run of 'v' and leaves a suffix not starting with 'v' |
| Strings.NatToString | src/exif_processor.py:85 | `str` of a tag number is a non-empty digit string with no leading zero, and only 0 starts with '0' |
| Strings.DigitsValueOfNatToString | src/version_manager.py:111 | `int(str(n)) == n` |
| Versioning.ParseParts | src/version_manager.py:111 | a successful conversion has one integer per piece |
| Versioning.ParseInt | src/version_manager.py:111 | `int` fails on the empty string and accepts every digit string; a value read after a "-" sign is never positive, any other value never negative |
| Versioning.ParseVersion | src/version_manager.py:101-113 | a parsed version has at least one component |
| Versioning.ParseVersionRejects | src/version_manager.py:110-113 | one non-integer component makes the whole version [0, 0, 0] |
| Versioning.ParsePartsRejects | src/version_manager.py:111 | one failing conversion fails the whole list |
| Versioning.ParseFormatRoundTrip | src/version_manager.py:110-111 | parsing the dotted text of some components gives those components back |
| Versioning.CompareFrom | src/version_manager.py:137-142 | the comparison is always -1, 0 or 1 |
| Versioning.Compare | src/version_manager.py:131-142 | comparing two versions gives -1, 0 or 1 |
| Versioning.CompareVersions | src/version_manager.py:115-142 | parse, pad with zeros and compare component by component: equals the comparison of the parsed versions |
| Versioning.CompareEqual | src/version_manager.py:131-142 | two versions compare equal iff they agree component-wise once padded with zeros |
| Versioning.CompareNewer | src/version_manager.py:131-142 | the result is 1 iff at the first differing padded component the first version's is larger |
| Versioning.CompareAntisymmetric | src/version_manager.py:137-142 | swapping the arguments negates the result |
| Versioning.CompareReflexive | src/version_manager.py:137-142 | a version compares equal to itself |
| Versioning.CompareTransitive | src/version_manager.py:131-142 | "newer than" is transitive |
| Versioning.CompareIgnoresTrailingZero | src/version_manager.py:131-134 | a trailing zero component changes no comparison ("1.2" equals "1.2.0") |
| Versioning.VersionManager.constructor | src/version_manager.py:31-67 | the file path is the given one, or base/config/version.json when none or an empty one is given; the record is the loaded one, or the four fallback fields when loading fails |
| Versioning.VersionManager.CurrentVersion | src/version_manager.py:75 | the record's version, or "0.0.0" |
| Versioning.VersionManager.AppName | src/version_manager.py:83 | the record's app name, or "EXIF Cleaner" |
| Versioning.VersionManager.Description | src/version_manager.py:91 | the record's description, or "" |
| Versioning.VersionManager.RepositoryUrl | src/version_manager.py:99 | the record's repository, or "" |
| Versioning.VersionManager.IsNewerVersion | src/version_manager.py:144-154 | true iff the remote version compares greater than the current one; never true for the current version itself |
| Versioning.VersionManager.VersionInfo | src/version_manager.py:156-167 | exactly the four report keys, each holding its getter's value |
| Versioning.VersionManager.UpdateVersionFile | src/version_manager.py:169-187 | the record becomes the old one overridden by the new fields, even when the write fails; the result says whether the write succeeded |
| UpdateChecking.ApiUrl | src/update_checker.py:44-57 | an API address exists iff the URL mentions github.com and splits into at least five pieces |
| UpdateChecking.SplitRepositoryUrl | src/update_checker.py:52 | https://github.com/owner/repo splits into "https:", "", "github.com", owner, repo |
| UpdateChecking.ApiUrlOfRepository | src/update_checker.py:50-56 | https://github.com/owner/repo maps to that repository's latest-release API address |
| UpdateChecking.DefaultApiUrl | src/update_checker.py:50-56 | the fallback record's repository maps to the username/clear_exif API address |
| UpdateChecking.Evaluate | src/update_checker.py:75-132 | invalid URL, network, other and missing-version failures with their messages; otherwise a report with the tag minus leading 'v's, the current version, notes and URL, announcing an update iff the release is newer |
| UpdateChecking.TaggedRelease | src/update_checker.py:94-118 | a release tagged "v" + a version reports that version, and an update iff it is newer |
| UpdateChecking.UpdateChecker.constructor | src/update_checker.py:37-42 | the repository URL comes from the version manager, the API address from it, and the cache starts empty |
| UpdateChecking.UpdateChecker.CheckForUpdates | src/update_checker.py:59-132 | a cached report is returned without a request; otherwise at most one request is made and its report is cached and returned |
| UpdateChecking.UpdateChecker.GetUpdateInfo | src/update_checker.py:134-140 | the same report as `check_for_updates`; with an empty cache, the cache becomes the report of one check and exactly one request is sent when the API address is non-empty; with a full cache, no request |
| UpdateChecking.UpdateChecker.IsUpdateAvailable | src/update_checker.py:142-149 | the cached report's flag; true only for a report of a strictly newer release; with an empty cache, the cache becomes the report of one check and exactly one request is sent when the API address is non-empty; with a full cache, no request |
| UpdateChecking.UpdateChecker.GetLatestVersion | src/update_checker.py:151-158 | the cached report's latest version, or ""; with an empty cache, the cache becomes the report of one check and exactly one request is sent when the API address is non-empty; with a full cache, no request |
| UpdateChecking.UpdateChecker.GetReleaseNotes | src/update_checker.py:160-167 | the cached report's notes, or ""; with an empty cache, the cache becomes the report of one check and exactly one request is sent when the API address is non-empty; with a full cache, no request |
| UpdateChecking.UpdateChecker.GetReleaseUrl | src/update_checker.py:169-176 | the cached report's URL, or ""; with an empty cache, the cache becomes the report of one check and exactly one request is sent when the API address is non-empty; with a full cache, no request |
| UpdateChecking.UpdateOnlyWhenNewer | src/update_checker.py:106-118 | an announced update is strictly newer than the current version, which in turn compares older |
| Agreement.ScanAndDispatchAgree | src/file_handler.py:120-121 | for an ordinary name the folder scan accepts exactly the files the processor handles |
| Agreement.LeadingDotsDisagree | src/file_handler.py:120-121 | "..jpg" is accepted by the folder scan yet refused by the processor |

## Left out

- The graphical interface (`gui.py`), the entry points and the file and folder dialogs (`select_files`, `select_folder`): they are user interaction, not logic.
- piexif and Pillow internals: decoding, `piexif.dump`, re-encoding and the `quality=100` setting. Their results are inputs. `piexif.dump` is taken to succeed on every stripped dictionary.
- Tag names: the model gives every IFD piexif produces an entry in piexif's name table. An IFD missing from that table would raise `KeyError` in the source and leave a partly filled dictionary plus `error`.
- ExifProcessing.GetExifInfo: a tag actually named `error` shares the key used for error reports. The model keeps tags and errors apart.
- Tag identifiers within one IFD are distinct in piexif's dict. The model's lists do not depend on this.
- FileHandling.GetFileInfo: reports the size in bytes. It does not model the division by 1024 and the rounding to two decimals of a float.
- ExifProcessing.BatchProcess:
  - progress is an exact rational rather than a float;
  - the callback's own effects and exceptions are not modelled;
  - the removals' file writes are not fed back into later files.
- ExifProcessing.BatchProcess records each file's `(path, success, error)` only, like the source; the file each removal writes is not part of the result.
- Versioning.ParseInt:
  - accepts ASCII digits with an optional sign;
  - does not model the surrounding whitespace, underscores and non-ASCII digits that Python's `int` also accepts;
  - non-string JSON values in the version record are not modelled.
- Lower-casing is ASCII-only, with no Unicode case mapping. Paths use '/' as the only separator, with no Windows rules.
- Loading the version file and writing it (`json.load`, `json.dump`) are inputs and outputs. Only their success or failure and the loaded record are modelled.
- The PyInstaller base-path choice is a parameter.
- The HTTP request (`requests.get`, status check, JSON decoding) is the `Fetch` input. JSON fields that are present but not strings are not modelled.
- UpdateChecking.UpdateChecker.constructor: receives the version manager instead of constructing one, because constructing one reads a file.
