/**
 * The file handler: which names count as supported images, how a folder is turned into a
 * list of image paths, how a file or folder path is validated, and per-file information.
 * The file system is abstract: the caller passes what `os.path.exists`, `isfile`, `isdir`,
 * `os.listdir`, `os.walk` and `os.path.getsize` would report.
 */
module FileHandling {
  import opened Wrappers
  import opened Strings
  import opened Paths

  /** The handler's `supported_formats`. */
  const SupportedFormats: seq<string> := [".jpg", ".jpeg", ".png", ".webp"]

  /**
   * `_is_supported_image`: the lower-cased pathlib suffix is a supported format. A supported
   * name is a real name: neither empty nor ".".
   */
  predicate IsSupportedImage(fileName: string): (r: bool)
    ensures r ==> fileName != "" && fileName != "."
  {
    SplitNoSeparator(".", '/');
    Lower(PathSuffix(fileName)) in SupportedFormats
  }

  /**
   * For a plain file name `stem + ext`, where `ext` is the part from the last dot, support is
   * decided by the extension alone, whatever its letter case.
   */
  lemma SupportedByExtension(stem: string, ext: string)
    requires stem != [] && '/' !in stem
    requires |ext| >= 2 && ext[0] == '.' && '.' !in ext[1..] && '/' !in ext
    ensures IsSupportedImage(stem + ext) <==> Lower(ext) in SupportedFormats
  {
    var name := stem + ext;
    PathNameOfPlain(name);
    SuffixOfAppended(stem, ext);
    assert PathSuffix(name) == ext;
  }

  /** Joining a plain supported file name under a directory keeps it supported, and conversely. */
  lemma SupportedUnderDirectory(dir: string, file: string)
    requires '/' !in file && file != "" && file != "."
    ensures IsSupportedImage(PathJoin(dir, file)) <==> IsSupportedImage(file)
  {
    JoinKeepsName(dir, file);
    JoinKeepsName("", file);
    assert PathJoin("", file) == file by { assert file[0] != '/'; }
  }

  /** What the file system reports about one path. */
  datatype PathStatus = PathStatus(present: bool, isFile: bool, isDir: bool)

  /** One name from `os.listdir(folder)`, with `os.path.isfile` of that name joined to the folder. */
  datatype Entry = Entry(name: string, isFile: bool)

  /** One `(root, dirs, files)` triple produced by `os.walk`; the sub-directory names are not needed. */
  datatype WalkStep = WalkStep(dir: string, files: seq<string>)

  /**
   * What the file system reports about a folder path: its status, the outcome of
   * `os.listdir` (which raises on a non-directory) and the sequence `os.walk` yields
   * (which is empty rather than raising).
   */
  datatype Folder = Folder(status: PathStatus, listing: Result<seq<Entry>, string>, walk: seq<WalkStep>)

  /** The file names the operating system hands out never contain a separator. */
  predicate PlainNames(folder: Folder) {
    && (folder.listing.Ok? ==> forall e :: e in folder.listing.value ==> '/' !in e.name)
    && forall step, f :: step in folder.walk && f in step.files ==> '/' !in f
  }

  /*
   * The collecting functions below take the name test as a parameter `wanted`; the handler
   * always passes IsSupportedImage. Keeping the test abstract keeps their proofs small.
   */

  /** The wanted files of one walk step, joined to its directory, in listing order. */
  function StepImages(dir: string, files: seq<string>, wanted: string -> bool): seq<string> {
    if files == [] then []
    else
      var last := files[|files| - 1];
      StepImages(dir, files[..|files| - 1], wanted) + (if wanted(last) then [PathJoin(dir, last)] else [])
  }

  /** The wanted files of a whole walk, directory by directory. */
  function WalkImages(walk: seq<WalkStep>, wanted: string -> bool): seq<string> {
    if walk == [] then []
    else
      var last := walk[|walk| - 1];
      WalkImages(walk[..|walk| - 1], wanted) + StepImages(last.dir, last.files, wanted)
  }

  /** The regular files of a listing with a wanted name, joined to the folder, in listing order. */
  function ListedImages(folderPath: string, entries: seq<Entry>, wanted: string -> bool): seq<string> {
    if entries == [] then []
    else
      var last := entries[|entries| - 1];
      ListedImages(folderPath, entries[..|entries| - 1], wanted)
        + (if last.isFile && wanted(last.name) then [PathJoin(folderPath, last.name)] else [])
  }

  /** What `get_image_files` returns, or the exception `os.listdir` raises. */
  function ImageFiles(folderPath: string, recursive: bool, folder: Folder): Result<seq<string>, string> {
    if !folder.status.present then Ok([])
    else if recursive then Ok(WalkImages(folder.walk, IsSupportedImage))
    else match folder.listing
      case Err(e) => Err(e)
      case Ok(entries) => Ok(ListedImages(folderPath, entries, IsSupportedImage))
  }

  /** `get_image_files`: collect the supported images of a folder, walking it when `recursive`. */
  method GetImageFiles(folderPath: string, recursive: bool, folder: Folder) returns (r: Result<seq<string>, string>)
    ensures r == ImageFiles(folderPath, recursive, folder)
  {
    if !folder.status.present {
      return Ok([]);
    }
    if recursive {
      var images := CollectWalk(folder.walk, IsSupportedImage);
      return Ok(images);
    }
    match folder.listing {
      case Err(e) =>
        return Err(e);
      case Ok(entries) =>
        var images := CollectListing(folderPath, entries, IsSupportedImage);
        return Ok(images);
    }
  }

  /** The `os.walk` loop of `get_image_files`. */
  method CollectWalk(walk: seq<WalkStep>, wanted: string -> bool) returns (images: seq<string>)
    ensures images == WalkImages(walk, wanted)
  {
    images := [];
    var i := 0;
    while i < |walk|
      invariant 0 <= i <= |walk|
      invariant images == WalkImages(walk[..i], wanted)
    {
      var step := walk[i];
      var j := 0;
      while j < |step.files|
        invariant 0 <= j <= |step.files|
        invariant images == WalkImages(walk[..i], wanted) + StepImages(step.dir, step.files[..j], wanted)
      {
        var file := step.files[j];
        if wanted(file) {
          images := images + [PathJoin(step.dir, file)];
        }
        assert step.files[..j + 1][..j] == step.files[..j];
        j := j + 1;
      }
      assert step.files[..j] == step.files;
      assert walk[..i + 1][..i] == walk[..i];
      i := i + 1;
    }
    assert walk[..i] == walk;
  }

  /** The `os.listdir` loop of `get_image_files`. */
  method CollectListing(folderPath: string, entries: seq<Entry>, wanted: string -> bool) returns (images: seq<string>)
    ensures images == ListedImages(folderPath, entries, wanted)
  {
    images := [];
    var i := 0;
    while i < |entries|
      invariant 0 <= i <= |entries|
      invariant images == ListedImages(folderPath, entries[..i], wanted)
    {
      var entry := entries[i];
      if entry.isFile && wanted(entry.name) {
        images := images + [PathJoin(folderPath, entry.name)];
      }
      assert entries[..i + 1][..i] == entries[..i];
      i := i + 1;
    }
    assert entries[..i] == entries;
  }

  /** A path is in a step's images exactly when it joins a supported file of that step. */
  lemma {:induction false} StepImagesMembers(dir: string, files: seq<string>, wanted: string -> bool, p: string)
    ensures p in StepImages(dir, files, wanted) <==> exists f :: f in files && wanted(f) && p == PathJoin(dir, f)
  {
    if files != [] {
      var init := files[..|files| - 1];
      StepImagesMembers(dir, init, wanted, p);
      assert files == init + [files[|files| - 1]];
    }
  }

  /** A path is in a walk's images exactly when it joins a supported file of one of the walk's steps. */
  lemma {:induction false} WalkImagesMembers(walk: seq<WalkStep>, wanted: string -> bool, p: string)
    ensures p in WalkImages(walk, wanted) <==>
      exists step, f :: step in walk && f in step.files && wanted(f) && p == PathJoin(step.dir, f)
  {
    if walk != [] {
      var init := walk[..|walk| - 1];
      var last := walk[|walk| - 1];
      WalkImagesMembers(init, wanted, p);
      StepImagesMembers(last.dir, last.files, wanted, p);
      assert walk == init + [last];
    }
  }

  /** A path is listed exactly when it joins a regular file of the folder whose name is supported. */
  lemma {:induction false} ListedImagesMembers(folderPath: string, entries: seq<Entry>, wanted: string -> bool, p: string)
    ensures p in ListedImages(folderPath, entries, wanted) <==>
      exists e :: e in entries && e.isFile && wanted(e.name) && p == PathJoin(folderPath, e.name)
  {
    if entries != [] {
      var init, last := entries[..|entries| - 1], entries[|entries| - 1];
      ListedImagesMembers(folderPath, init, wanted, p);
      assert entries == init + [last];
      var tail := if last.isFile && wanted(last.name) then [PathJoin(folderPath, last.name)] else [];
      assert ListedImages(folderPath, entries, wanted) == ListedImages(folderPath, init, wanted) + tail;
      if p in tail {
        assert last in entries && last.isFile && wanted(last.name) && p == PathJoin(folderPath, last.name);
      }
      if e :| e in entries && e.isFile && wanted(e.name) && p == PathJoin(folderPath, e.name) {
        if e != last {
          assert e in init;
        }
      }
    }
  }

  /** Listing order is kept: the images of a concatenated listing are the images of each part, in order. */
  lemma {:induction false} ListedImagesAppend(folderPath: string, a: seq<Entry>, b: seq<Entry>, wanted: string -> bool)
    ensures ListedImages(folderPath, a + b, wanted) == ListedImages(folderPath, a, wanted) + ListedImages(folderPath, b, wanted)
  {
    if b != [] {
      var init := b[..|b| - 1];
      ListedImagesAppend(folderPath, a, init, wanted);
      assert (a + b)[..|a + b| - 1] == a + init;
    } else {
      assert a + b == a;
    }
  }

  /** Every path `get_image_files` returns names a supported image. */
  lemma ImageFilesAreSupported(folderPath: string, recursive: bool, folder: Folder, p: string)
    requires PlainNames(folder)
    requires ImageFiles(folderPath, recursive, folder).Ok?
    requires p in ImageFiles(folderPath, recursive, folder).value
    ensures IsSupportedImage(p)
  {
    if recursive {
      WalkImagesMembers(folder.walk, IsSupportedImage, p);
      var step, f :| step in folder.walk && f in step.files && IsSupportedImage(f) && p == PathJoin(step.dir, f);
      SupportedUnderDirectory(step.dir, f);
    } else {
      ListedImagesMembers(folderPath, folder.listing.value, IsSupportedImage, p);
      var e :| e in folder.listing.value && e.isFile && IsSupportedImage(e.name) && p == PathJoin(folderPath, e.name);
      SupportedUnderDirectory(folderPath, e.name);
    }
  }

  /** A `(valid, message)` pair returned by the validators. */
  datatype Check = Check(ok: bool, message: string)

  const FileMissing: string := "文件不存在"
  const NotAFile: string := "路径不是文件"
  const UnsupportedFile: string := "不支持的文件格式"
  const ValidFile: string := "有效的文件"
  const FolderMissing: string := "文件夹不存在"
  const NotAFolder: string := "路径不是文件夹"
  const NoImages: string := "文件夹中没有找到支持的图片文件"
  const ValidFolder: string := "有效的文件夹"

  /** `validate_file_path`: existence, then being a file, then the format; the first failure decides. */
  function ValidateFilePath(path: string, status: PathStatus): (r: Check)
    ensures r.ok <==> status.present && status.isFile && IsSupportedImage(path)
    ensures !status.present ==> r.message == FileMissing
    ensures status.present && !status.isFile ==> r.message == NotAFile
    ensures status.present && status.isFile && !IsSupportedImage(path) ==> r.message == UnsupportedFile
    ensures r.ok ==> r.message == ValidFile
  {
    if !status.present then Check(false, FileMissing)
    else if !status.isFile then Check(false, NotAFile)
    else if !IsSupportedImage(path) then Check(false, UnsupportedFile)
    else Check(true, ValidFile)
  }

  /**
   * `validate_folder_path`: existence, then being a directory, then holding at least one
   * supported image directly inside it; a listing failure propagates as an exception.
   */
  method ValidateFolderPath(folderPath: string, folder: Folder) returns (r: Result<Check, string>)
    ensures !folder.status.present ==> r == Ok(Check(false, FolderMissing))
    ensures folder.status.present && !folder.status.isDir ==> r == Ok(Check(false, NotAFolder))
    ensures folder.status.present && folder.status.isDir && folder.listing.Err? ==> r == Err(folder.listing.error)
    ensures (folder.status.present && folder.status.isDir && folder.listing.Ok?
             && !(exists e :: e in folder.listing.value && e.isFile && IsSupportedImage(e.name)))
            ==> r == Ok(Check(false, NoImages))
    ensures r.Ok? && !r.value.ok ==> r.value.message in {FolderMissing, NotAFolder, NoImages}
    ensures r == Ok(Check(true, ValidFolder)) <==>
      && folder.status.present && folder.status.isDir && folder.listing.Ok?
      && exists e :: e in folder.listing.value && e.isFile && IsSupportedImage(e.name)
    ensures r.Ok? && r.value.ok ==> r.value.message == ValidFolder
  {
    if !folder.status.present {
      return Ok(Check(false, FolderMissing));
    }
    if !folder.status.isDir {
      return Ok(Check(false, NotAFolder));
    }
    var images := GetImageFiles(folderPath, false, folder);
    match images {
      case Err(e) =>
        return Err(e);
      case Ok(files) =>
        var entries := folder.listing.value;
        if files == [] {
          forall e | e in entries && e.isFile && IsSupportedImage(e.name) ensures false {
            ListedImagesMembers(folderPath, entries, IsSupportedImage, PathJoin(folderPath, e.name));
          }
          return Ok(Check(false, NoImages));
        }
        ListedImagesMembers(folderPath, entries, IsSupportedImage, files[0]);
        return Ok(Check(true, ValidFolder));
    }
  }

  /** The dictionary `get_file_info` returns: the file's details, or only the error text. */
  datatype FileInfo =
    | FileInfo(name: string, path: string, sizeBytes: nat, extension: string)
    | FileInfoError(error: string)

  /**
   * `get_file_info`, given the outcome of `os.path.getsize`: the base name, the path as given,
   * the size and the lower-cased suffix.
   */
  function GetFileInfo(path: string, size: Result<nat, string>): (r: FileInfo)
    ensures size.Err? <==> r.FileInfoError?
    ensures size.Err? ==> r == FileInfoError(size.error)
    ensures r.FileInfo? ==> r.path == path && '/' !in r.name && r.sizeBytes == size.value
    ensures r.FileInfo? ==> r.name == Basename(path) && r.extension == Lower(PathSuffix(path))
    ensures r.FileInfo? ==> Lower(r.extension) == r.extension
    ensures r.FileInfo? ==> (r.extension in SupportedFormats <==> IsSupportedImage(path))
  {
    match size
    case Err(e) => FileInfoError(e)
    case Ok(bytes) =>
      var ext := Lower(PathSuffix(path));
      LowerIdempotent(PathSuffix(path));
      FileInfo(Basename(path), path, bytes, ext)
  }

  /**
   * The record for a plain `stem + ext` under any directory: that name, the joined path, the
   * size, and the extension lower-cased.
   */
  lemma GetFileInfoOfJoined(dir: string, stem: string, ext: string, n: nat)
    requires stem != [] && '/' !in stem + ext
    requires |ext| >= 2 && ext[0] == '.' && '.' !in ext[1..]
    ensures GetFileInfo(PathJoin(dir, stem + ext), Ok(n)) == FileInfo(stem + ext, PathJoin(dir, stem + ext), n, Lower(ext))
  {
    var name := stem + ext;
    JoinKeepsName(dir, name);
    BasenameOfJoin(dir, name);
    SuffixOfAppended(stem, ext);
  }

  /** `batch_get_file_info`: one information record per path, in the given order. */
  method BatchGetFileInfo(paths: seq<string>, sizeOf: string -> Result<nat, string>) returns (infos: seq<FileInfo>)
    ensures |infos| == |paths|
    ensures forall i :: 0 <= i < |paths| ==> infos[i] == GetFileInfo(paths[i], sizeOf(paths[i]))
  {
    infos := [];
    for i := 0 to |paths|
      invariant |infos| == i
      invariant forall k :: 0 <= k < i ==> infos[k] == GetFileInfo(paths[k], sizeOf(paths[k]))
    {
      infos := infos + [GetFileInfo(paths[i], sizeOf(paths[i]))];
    }
  }
}
