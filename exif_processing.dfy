/**
 * The EXIF processor: whether an image carries EXIF tags, the tags flattened to a
 * name -> value dictionary, removing every tag, removing only the tags with given names,
 * and running one of the two removals over a list of files with progress reports.
 *
 * piexif and Pillow are not modelled byte by byte. What they report for a file is passed in
 * as an ImageFile; a decoded EXIF dictionary is an ExifData, an insertion-ordered list of
 * directories (IFDs), each an insertion-ordered list of tags, exactly as Python iterates them.
 */
module ExifProcessing {
  import opened Wrappers
  import opened Strings
  import opened Paths

  type Ifd = string
  type TagId = nat

  /**
   * A tag value as piexif decodes it: an integer, a tuple of integers, a rational as a
   * (numerator, denominator) pair, a tuple of such pairs, or raw bytes (ASCII and UNDEFINED tags).
   * The processor only moves values around and never inspects them.
   */
  datatype TagValue =
    | Number(n: int)
    | Numbers(ns: seq<int>)
    | Rational(num: int, den: int)
    | Rationals(rs: seq<(int, int)>)
    | Raw(bytes: seq<bv8>)

  datatype Tag = Tag(id: TagId, value: TagValue)

  /** One entry of the dictionary piexif.load returns: an IFD name and its tags, in order. */
  datatype Directory = Directory(ifd: Ifd, tags: seq<Tag>)

  /** The dictionary piexif.load returns, in iteration order. */
  type ExifData = seq<Directory>

  /** The entry holding the embedded thumbnail; every loop of the processor skips it. */
  const Thumbnail: Ifd := "thumbnail"

  /** piexif's tag-name table `TAGS[ifd][tag]['name']`, for the pairs it knows. */
  type TagTable = map<(Ifd, TagId), string>

  /** `piexif.TAGS[ifd].get(tag, {}).get('name', str(tag))`. */
  function TagName(table: TagTable, ifd: Ifd, id: TagId): string {
    if (ifd, id) in table then table[(ifd, id)] else NatToString(id)
  }

  // ---------------------------------------------------------------------------------------
  // Format dispatch

  /** The extension every operation dispatches on: `os.path.splitext(file_path.lower())[1]`. */
  function Extension(path: string): string {
    SplitExt(Lower(path))
  }

  /** The three ways the processor treats a file: through piexif (.jpg, .jpeg, .webp), as PNG, or not at all. */
  datatype Kind = ExifContainer | Png | Unsupported

  function Classify(path: string): (k: Kind)
    ensures k == ExifContainer <==> Extension(path) in [".jpg", ".jpeg", ".webp"]
    ensures k == Png <==> Extension(path) == ".png"
  {
    var ext := Extension(path);
    if ext in [".jpg", ".jpeg", ".webp"] then ExifContainer
    else if ext == ".png" then Png
    else Unsupported
  }

  /** Classification ignores letter case: it only ever sees the lower-cased path. */
  lemma ClassifyIgnoresCase(path: string)
    ensures Classify(Lower(path)) == Classify(path)
    ensures Extension(Lower(path)) == Extension(path)
  {
    LowerIdempotent(path);
  }

  /**
   * A file named `stem + ext`, where `ext` is the part from the last dot and the stem does not
   * end in a dot or a separator, is classified by its extension alone, in any letter case.
   */
  lemma ClassifyByExtension(stem: string, ext: string)
    requires stem != [] && stem[|stem| - 1] != '.' && stem[|stem| - 1] != '/'
    requires |ext| >= 1 && ext[0] == '.' && '.' !in ext[1..] && '/' !in ext
    ensures Extension(stem + ext) == Lower(ext)
  {
    LowerAppend(stem, ext);
    LowerAt(stem, |stem| - 1);
    LowerExtension(ext);
    SplitExtOfAppended(Lower(stem), Lower(ext));
  }

  /** Lower-casing an extension keeps its leading dot and adds no dot or separator. */
  lemma LowerExtension(ext: string)
    requires |ext| >= 1 && ext[0] == '.' && '.' !in ext[1..] && '/' !in ext
    ensures |Lower(ext)| >= 1 && Lower(ext)[0] == '.' && '.' !in Lower(ext)[1..] && '/' !in Lower(ext)
  {
    var le := Lower(ext);
    LowerAt(ext, 0);
    forall k | 1 <= k < |le| ensures le[k] != '.' && le[k] != '/' {
      LowerAt(ext, k);
      assert ext[k] in ext[1..];
    }
    assert le[0] != '/';
  }

  /** The message both removers return for a file they do not handle. */
  function UnsupportedMessage(ext: string): string {
    "不支持的格式: " + ext
  }

  // ---------------------------------------------------------------------------------------
  // What the foreign libraries report

  /** An embedded EXIF chunk (`img.info['exif']`): its length in bytes and what piexif.load makes of it. */
  datatype ExifBlob = ExifBlob(length: nat, decoded: Result<ExifData, string>)

  /**
   * `piexif.load(b'')`: with no recognised header piexif opens its argument as a file name,
   * and the empty name does not exist.
   */
  const EmptyBlob: ExifBlob := ExifBlob(0, Err("[Errno 2] No such file or directory: b''"))

  /** An image as `Image.open` gives it: its format, its EXIF chunk if any, and how saving it ends. */
  datatype OpenedImage = OpenedImage(format: string, exifChunk: Option<ExifBlob>, saveError: Option<string>)

  /** What the libraries report for one path: `piexif.load(path)` and `Image.open(path)`. */
  datatype ImageFile = ImageFile(load: Result<ExifData, string>, image: Result<OpenedImage, string>)

  /** The `exif=` argument a save was given. */
  datatype ExifWritten =
    | EmptyExif             // exif=b''
    | NoneExif              // exif=None
    | Omitted               // no exif argument
    | Dumped(data: ExifData) // exif=piexif.dump(data)

  /** A completed `img.save(target, format=..., exif=...)`. */
  datatype Saved = Saved(target: string, format: string, exif: ExifWritten)

  /** The removers' `(success, error)` pair, with the save that succeeded. */
  datatype Outcome = Succeeded(saved: Saved) | Failed(error: string) {
    function Success(): bool { Succeeded? }
    function ErrorText(): Option<string> { if Failed? then Some(error) else None }
  }

  /** `output_path or file_path`: an absent or empty output path means overwrite the input. */
  function OutputTarget(filePath: string, outputPath: Option<string>): (target: string)
    ensures outputPath == None ==> target == filePath
    ensures outputPath == Some("") ==> target == filePath
    ensures outputPath.Some? && outputPath.value != "" ==> target == outputPath.value
  {
    if outputPath.Some? && outputPath.value != "" then outputPath.value else filePath
  }

  /** Saving an opened image: the save either completes or fails with its exception text. */
  function Save(img: OpenedImage, saved: Saved): (r: Outcome)
    ensures r.Succeeded? <==> img.saveError.None?
    ensures r.Succeeded? ==> r.saved == saved
    ensures r.Failed? ==> r.error == img.saveError.value
  {
    if img.saveError.Some? then Failed(img.saveError.value) else Succeeded(saved)
  }

  // ---------------------------------------------------------------------------------------
  // has_exif

  /** Some directory other than the thumbnail holds a tag. */
  predicate HasTags(d: ExifData) {
    exists k :: 0 <= k < |d| && d[k].ifd != Thumbnail && d[k].tags != []
  }

  /** `has_exif`. */
  method HasExif(path: string, file: ImageFile) returns (r: bool)
    ensures Classify(path) == ExifContainer ==> (r <==> file.load.Ok? && HasTags(file.load.value))
    ensures Classify(path) == Png ==> (r <==> file.image.Ok? && file.image.value.exifChunk.Some?)
    ensures Classify(path) == Unsupported ==> !r
  {
    var kind := Classify(path);
    if kind == ExifContainer {
      match file.load {
        case Err(_) =>
          return false;
        case Ok(d) =>
          var k := 0;
          while k < |d|
            invariant 0 <= k <= |d|
            invariant forall k2 :: 0 <= k2 < k ==> d[k2].ifd == Thumbnail || d[k2].tags == []
          {
            if d[k].ifd != Thumbnail && d[k].tags != [] {
              return true;
            }
            k := k + 1;
          }
          return false;
      }
    } else if kind == Png {
      match file.image {
        case Err(_) =>
          return false;
        case Ok(img) =>
          return img.exifChunk.Some?;
      }
    }
    return false;
  }

  // ---------------------------------------------------------------------------------------
  // get_exif_info

  /** Writing one directory's tags into a dictionary, in order: `exif_info[name] = value`. */
  function AddTags(m: map<string, TagValue>, table: TagTable, ifd: Ifd, tags: seq<Tag>): map<string, TagValue> {
    if tags == [] then m
    else
      var last := tags[|tags| - 1];
      AddTags(m, table, ifd, tags[..|tags| - 1])[TagName(table, ifd, last.id) := last.value]
  }

  /** The whole dictionary flattened to tag names, thumbnail excluded, later entries overwriting earlier ones. */
  function Flatten(d: ExifData, table: TagTable): (r: map<string, TagValue>)
    ensures (forall k :: 0 <= k < |d| ==> d[k].ifd == Thumbnail) ==> r == map[]
  {
    if d == [] then map[]
    else
      var last := d[|d| - 1];
      var m := Flatten(d[..|d| - 1], table);
      if last.ifd == Thumbnail then m else AddTags(m, table, last.ifd, last.tags)
  }

  /** The two loops of `get_exif_info`, over directories and over their tags. */
  method FlattenTags(d: ExifData, table: TagTable) returns (info: map<string, TagValue>)
    ensures info == Flatten(d, table)
  {
    info := map[];
    var k := 0;
    while k < |d|
      invariant 0 <= k <= |d|
      invariant info == Flatten(d[..k], table)
    {
      assert d[..k + 1][..k] == d[..k];
      var dir := d[k];
      if dir.ifd != Thumbnail {
        var j := 0;
        while j < |dir.tags|
          invariant 0 <= j <= |dir.tags|
          invariant info == AddTags(Flatten(d[..k], table), table, dir.ifd, dir.tags[..j])
        {
          assert dir.tags[..j + 1][..j] == dir.tags[..j];
          var tag := dir.tags[j];
          info := info[TagName(table, dir.ifd, tag.id) := tag.value];
          j := j + 1;
        }
        assert dir.tags[..j] == dir.tags;
      }
      k := k + 1;
    }
    assert d[..k] == d;
  }

  /** What `get_exif_info` returns: the flattened tags, or a dictionary holding only `error`. */
  datatype ExifInfo = Tags(entries: map<string, TagValue>) | InfoError(error: string)

  /** `get_exif_info`. */
  method GetExifInfo(path: string, file: ImageFile, table: TagTable) returns (r: ExifInfo)
    ensures Classify(path) == Unsupported ==> r == Tags(map[])
    ensures Classify(path) == ExifContainer && file.load.Ok? ==> r == Tags(Flatten(file.load.value, table))
    ensures Classify(path) == ExifContainer && file.load.Err? ==> r == InfoError(file.load.error)
    ensures Classify(path) == Png && file.image.Err? ==> r == InfoError(file.image.error)
    ensures Classify(path) == Png && file.image.Ok? && !HasChunk(file.image.value) ==> r == Tags(map[])
    ensures Classify(path) == Png && file.image.Ok? && HasChunk(file.image.value) ==>
      var decoded := file.image.value.exifChunk.value.decoded;
      r == (if decoded.Ok? then Tags(Flatten(decoded.value, table)) else InfoError(decoded.error))
  {
    var kind := Classify(path);
    if kind == ExifContainer {
      match file.load {
        case Err(e) =>
          return InfoError(e);
        case Ok(d) =>
          var info := FlattenTags(d, table);
          return Tags(info);
      }
    } else if kind == Png {
      match file.image {
        case Err(e) =>
          return InfoError(e);
        case Ok(img) =>
          if img.exifChunk.None? || img.exifChunk.value.length == 0 {
            return Tags(map[]);
          }
          match img.exifChunk.value.decoded {
            case Err(e) =>
              return InfoError(e);
            case Ok(d) =>
              var info := FlattenTags(d, table);
              return Tags(info);
          }
      }
    }
    return Tags(map[]);
  }

  /** A dictionary key is present after adding tags exactly when it was before or some added tag has that name. */
  lemma {:induction false} AddTagsKeys(m: map<string, TagValue>, table: TagTable, ifd: Ifd, tags: seq<Tag>, n: string)
    ensures n in AddTags(m, table, ifd, tags) <==>
      n in m || exists t :: t in tags && TagName(table, ifd, t.id) == n
  {
    if tags != [] {
      var init := tags[..|tags| - 1];
      AddTagsKeys(m, table, ifd, init, n);
      assert tags == init + [tags[|tags| - 1]];
    }
  }

  /** Adding tags none of which has name `n` leaves the entry for `n` as it was. */
  lemma {:induction false} AddTagsElsewhere(m: map<string, TagValue>, table: TagTable, ifd: Ifd, tags: seq<Tag>, n: string)
    requires forall j :: 0 <= j < |tags| ==> TagName(table, ifd, tags[j].id) != n
    ensures n in AddTags(m, table, ifd, tags) <==> n in m
    ensures n in m ==> AddTags(m, table, ifd, tags)[n] == m[n]
  {
    if tags != [] {
      AddTagsElsewhere(m, table, ifd, tags[..|tags| - 1], n);
    }
  }

  /** The last tag with a given name supplies that name's value. */
  lemma {:induction false} AddTagsLastWins(m: map<string, TagValue>, table: TagTable, ifd: Ifd, tags: seq<Tag>, j: nat)
    requires j < |tags|
    requires forall j2 :: j < j2 < |tags| ==> TagName(table, ifd, tags[j2].id) != TagName(table, ifd, tags[j].id)
    ensures TagName(table, ifd, tags[j].id) in AddTags(m, table, ifd, tags)
    ensures AddTags(m, table, ifd, tags)[TagName(table, ifd, tags[j].id)] == tags[j].value
  {
    if j < |tags| - 1 {
      AddTagsLastWins(m, table, ifd, tags[..|tags| - 1], j);
    }
  }

  /** The flattened names are exactly the names of the tags outside the thumbnail. */
  lemma {:induction false} FlattenKeys(d: ExifData, table: TagTable, n: string)
    ensures n in Flatten(d, table) <==>
      exists k, t :: 0 <= k < |d| && d[k].ifd != Thumbnail && t in d[k].tags && TagName(table, d[k].ifd, t.id) == n
  {
    if d != [] {
      var init, last := d[..|d| - 1], d[|d| - 1];
      FlattenKeys(init, table, n);
      if last.ifd != Thumbnail {
        AddTagsKeys(Flatten(init, table), table, last.ifd, last.tags, n);
      }
      if exists k, t :: 0 <= k < |d| && d[k].ifd != Thumbnail && t in d[k].tags && TagName(table, d[k].ifd, t.id) == n {
        var k, t :| 0 <= k < |d| && d[k].ifd != Thumbnail && t in d[k].tags && TagName(table, d[k].ifd, t.id) == n;
        if k < |d| - 1 {
          assert init[k] == d[k];
        }
      }
    }
  }

  /**
   * When two tags share a name the later directory wins: a directory appended after `d`
   * decides the value of every name it holds, through its last tag of that name.
   */
  lemma LaterDirectoryWins(d: ExifData, dir: Directory, table: TagTable, j: nat)
    requires dir.ifd != Thumbnail && j < |dir.tags|
    requires forall j2 :: j < j2 < |dir.tags| ==> TagName(table, dir.ifd, dir.tags[j2].id) != TagName(table, dir.ifd, dir.tags[j].id)
    ensures TagName(table, dir.ifd, dir.tags[j].id) in Flatten(d + [dir], table)
    ensures Flatten(d + [dir], table)[TagName(table, dir.ifd, dir.tags[j].id)] == dir.tags[j].value
  {
    assert (d + [dir])[..|d|] == d;
    AddTagsLastWins(Flatten(d, table), table, dir.ifd, dir.tags, j);
  }

  /** A name that an appended directory does not hold keeps the value the earlier directories gave it. */
  lemma EarlierValueSurvives(d: ExifData, dir: Directory, table: TagTable, n: string)
    requires forall j :: 0 <= j < |dir.tags| ==> TagName(table, dir.ifd, dir.tags[j].id) != n
    ensures n in Flatten(d + [dir], table) <==> n in Flatten(d, table)
    ensures n in Flatten(d, table) ==> Flatten(d + [dir], table)[n] == Flatten(d, table)[n]
  {
    assert (d + [dir])[..|d|] == d;
    AddTagsElsewhere(Flatten(d, table), table, dir.ifd, dir.tags, n);
  }

  /** The thumbnail's contents never reach the flattened dictionary. */
  lemma {:induction false} FlattenIgnoresThumbnail(d: ExifData, table: TagTable, k: nat, tags: seq<Tag>)
    requires k < |d| && d[k].ifd == Thumbnail
    ensures Flatten(d[k := Directory(Thumbnail, tags)], table) == Flatten(d, table)
  {
    var n := |d|;
    var d2 := d[k := Directory(Thumbnail, tags)];
    var init := d[..n - 1];
    if k == n - 1 {
      assert d2[..n - 1] == init;
      assert Flatten(d2, table) == Flatten(init, table);
    } else {
      assert d2[..n - 1] == init[k := Directory(Thumbnail, tags)];
      assert d2[n - 1] == d[n - 1];
      FlattenIgnoresThumbnail(init, table, k, tags);
    }
  }

  /** `has_exif` and `get_exif_info` agree: tags are present exactly when the flattened dictionary is not empty. */
  lemma HasTagsIffInfo(d: ExifData, table: TagTable)
    ensures HasTags(d) <==> Flatten(d, table) != map[]
  {
    if HasTags(d) {
      var k :| 0 <= k < |d| && d[k].ifd != Thumbnail && d[k].tags != [];
      var t := d[k].tags[0];
      FlattenKeys(d, table, TagName(table, d[k].ifd, t.id));
    }
    if Flatten(d, table) != map[] {
      var n :| n in Flatten(d, table);
      FlattenKeys(d, table, n);
    }
  }

  // ---------------------------------------------------------------------------------------
  // The selective strip

  /** The elements of `xs` that `drop` does not select, in order. */
  function Without<T>(xs: seq<T>, drop: T -> bool): (r: seq<T>)
    ensures |r| <= |xs|
  {
    if xs == [] then []
    else Without(xs[..|xs| - 1], drop) + (if drop(xs[|xs| - 1]) then [] else [xs[|xs| - 1]])
  }

  /** Whether a tag of directory `ifd` carries one of the names to remove. */
  function Doomed(table: TagTable, ifd: Ifd, remove: seq<string>): Tag -> bool {
    (t: Tag) => TagName(table, ifd, t.id) in remove
  }

  /** The tags of one directory that survive: those whose name is not to be removed, in order. */
  function Kept(table: TagTable, ifd: Ifd, tags: seq<Tag>, remove: seq<string>): seq<Tag> {
    Without(tags, Doomed(table, ifd, remove))
  }

  /** One directory after the strip; the thumbnail is left alone. */
  function StripDirectory(dir: Directory, table: TagTable, remove: seq<string>): Directory {
    if dir.ifd == Thumbnail then dir else dir.(tags := Kept(table, dir.ifd, dir.tags, remove))
  }

  /** The dictionary after the strip: every directory stripped, none added, dropped or reordered. */
  function Stripped(d: ExifData, table: TagTable, remove: seq<string>): (r: ExifData)
    ensures |r| == |d|
  {
    seq(|d|, k requires 0 <= k < |d| => StripDirectory(d[k], table, remove))
  }

  /**
   * The inner loop of `remove_selected_exif` for one directory: walk a snapshot of the tag
   * list and delete, in place, each entry `drop` selects.
   */
  method DeleteWhere<T>(keys: seq<T>, drop: T -> bool) returns (xs: seq<T>)
    ensures xs == Without(keys, drop)
  {
    xs := keys;
    var kept := 0;
    var j := 0;
    while j < |keys|
      invariant 0 <= j <= |keys|
      invariant kept == |Without(keys[..j], drop)|
      invariant xs == Without(keys[..j], drop) + keys[j..]
    {
      DeleteStep(keys, drop, j, xs, kept);
      if drop(keys[j]) {
        xs := xs[..kept] + xs[kept + 1..];
      } else {
        kept := kept + 1;
      }
      j := j + 1;
    }
    assert keys[..j] == keys;
  }

  /** Cutting the middle element out of `w + [x] + rest` leaves `w + rest`. */
  lemma SpliceOut<T>(w: seq<T>, x: T, rest: seq<T>)
    ensures (w + ([x] + rest))[..|w|] + (w + ([x] + rest))[|w| + 1..] == w + rest
  {
    var xs := w + ([x] + rest);
    assert xs[..|w|] == w;
    assert xs[|w| + 1..] == rest;
  }

  /** One pass of the deletion loop keeps its invariant, whether `keys[j]` is deleted or kept. */
  lemma DeleteStep<T>(keys: seq<T>, drop: T -> bool, j: nat, xs: seq<T>, kept: nat)
    requires j < |keys| && kept == |Without(keys[..j], drop)| && xs == Without(keys[..j], drop) + keys[j..]
    ensures drop(keys[j]) ==> kept < |xs| && kept == |Without(keys[..j + 1], drop)|
    ensures drop(keys[j]) ==> xs[..kept] + xs[kept + 1..] == Without(keys[..j + 1], drop) + keys[j + 1..]
    ensures !drop(keys[j]) ==> kept + 1 == |Without(keys[..j + 1], drop)|
    ensures !drop(keys[j]) ==> xs == Without(keys[..j + 1], drop) + keys[j + 1..]
  {
    var w, x, rest := Without(keys[..j], drop), keys[j], keys[j + 1..];
    WithoutStep(keys, j, drop);
    assert keys[j..] == [x] + rest;
    if drop(x) {
      SpliceOut(w, x, rest);
    } else {
      assert w + ([x] + rest) == (w + [x]) + rest;
    }
  }

  /** The filter over one more element of a prefix. */
  lemma WithoutStep<T>(keys: seq<T>, j: nat, drop: T -> bool)
    requires j < |keys|
    ensures Without(keys[..j + 1], drop) == Without(keys[..j], drop) + (if drop(keys[j]) then [] else [keys[j]])
  {
    assert keys[..j + 1][..j] == keys[..j];
  }

  /** The outer loop of `remove_selected_exif`: strip every directory except the thumbnail. */
  method StripTags(d: ExifData, table: TagTable, remove: seq<string>) returns (out: ExifData)
    ensures out == Stripped(d, table, remove)
  {
    out := d;
    var k := 0;
    while k < |d|
      invariant 0 <= k <= |d| && |out| == |d|
      invariant forall k2 :: 0 <= k2 < k ==> out[k2] == StripDirectory(d[k2], table, remove)
      invariant forall k2 :: k <= k2 < |d| ==> out[k2] == d[k2]
    {
      if out[k].ifd != Thumbnail {
        var tags := DeleteWhere(out[k].tags, Doomed(table, out[k].ifd, remove));
        out := out[k := out[k].(tags := tags)];
      }
      k := k + 1;
    }
  }

  /** A tag survives the strip exactly when it was there and its name is not to be removed. */
  lemma {:induction false} KeptMembers(table: TagTable, ifd: Ifd, tags: seq<Tag>, remove: seq<string>, t: Tag)
    ensures t in Kept(table, ifd, tags, remove) <==> t in tags && TagName(table, ifd, t.id) !in remove
  {
    if tags != [] {
      var init := tags[..|tags| - 1];
      KeptMembers(table, ifd, init, remove, t);
      assert tags == init + [tags[|tags| - 1]];
    }
  }

  /** What the strip does to each directory: names unchanged, the thumbnail untouched, and exactly the removed names gone. */
  lemma StrippedDirectory(d: ExifData, table: TagTable, remove: seq<string>, k: nat, t: Tag)
    requires k < |d|
    ensures Stripped(d, table, remove)[k].ifd == d[k].ifd
    ensures d[k].ifd == Thumbnail ==> Stripped(d, table, remove)[k] == d[k]
    ensures d[k].ifd != Thumbnail ==>
      (t in Stripped(d, table, remove)[k].tags <==> t in d[k].tags && TagName(table, d[k].ifd, t.id) !in remove)
  {
    KeptMembers(table, d[k].ifd, d[k].tags, remove, t);
  }

  /** Keeping is idempotent. */
  lemma {:induction false} KeptIdempotent(table: TagTable, ifd: Ifd, tags: seq<Tag>, remove: seq<string>)
    ensures Kept(table, ifd, Kept(table, ifd, tags, remove), remove) == Kept(table, ifd, tags, remove)
  {
    if tags != [] {
      var init, last := tags[..|tags| - 1], tags[|tags| - 1];
      var ki := Kept(table, ifd, init, remove);
      KeptIdempotent(table, ifd, init, remove);
      if TagName(table, ifd, last.id) !in remove {
        assert Kept(table, ifd, tags, remove) == ki + [last];
        assert (ki + [last])[..|ki|] == ki;
        assert Kept(table, ifd, ki + [last], remove) == Kept(table, ifd, ki, remove) + [last];
      } else {
        assert Kept(table, ifd, tags, remove) == ki;
      }
    }
  }

  /** Stripping twice with the same names is stripping once. */
  lemma StripIdempotent(d: ExifData, table: TagTable, remove: seq<string>)
    ensures Stripped(Stripped(d, table, remove), table, remove) == Stripped(d, table, remove)
  {
    forall k | 0 <= k < |d|
      ensures Stripped(Stripped(d, table, remove), table, remove)[k] == Stripped(d, table, remove)[k]
    {
      KeptIdempotent(table, d[k].ifd, d[k].tags, remove);
    }
  }

  /** Two dictionaries agree on a key: both lack it, or both map it to the same value. */
  predicate AgreeOn(m: map<string, TagValue>, m2: map<string, TagValue>, n: string) {
    (n in m <==> n in m2) && (n in m ==> m[n] == m2[n])
  }

  /** One step of the filter: the last tag survives exactly when its name is not to be removed. */
  lemma KeptSnoc(table: TagTable, ifd: Ifd, tags: seq<Tag>, remove: seq<string>)
    requires tags != []
    ensures Kept(table, ifd, tags, remove)
         == Kept(table, ifd, tags[..|tags| - 1], remove)
            + (if TagName(table, ifd, tags[|tags| - 1].id) in remove then [] else [tags[|tags| - 1]])
  {
    assert Doomed(table, ifd, remove)(tags[|tags| - 1]) == (TagName(table, ifd, tags[|tags| - 1].id) in remove);
  }

  /** Adding one more tag updates its name only. */
  lemma AddTagsSnoc(m: map<string, TagValue>, table: TagTable, ifd: Ifd, tags: seq<Tag>, t: Tag)
    ensures AddTags(m, table, ifd, tags + [t]) == AddTags(m, table, ifd, tags)[TagName(table, ifd, t.id) := t.value]
  {
    assert (tags + [t])[..|tags|] == tags;
  }

  lemma {:induction false} AddKeptAgrees(m: map<string, TagValue>, m2: map<string, TagValue>, table: TagTable,
                                         ifd: Ifd, tags: seq<Tag>, remove: seq<string>, n: string)
    requires n !in remove && AgreeOn(m, m2, n)
    ensures AgreeOn(AddTags(m, table, ifd, Kept(table, ifd, tags, remove)), AddTags(m2, table, ifd, tags), n)
  {
    if tags != [] {
      var init, last := tags[..|tags| - 1], tags[|tags| - 1];
      var ki, name := Kept(table, ifd, init, remove), TagName(table, ifd, last.id);
      AddKeptAgrees(m, m2, table, ifd, init, remove, n);
      KeptSnoc(table, ifd, tags, remove);
      assert AddTags(m2, table, ifd, tags) == AddTags(m2, table, ifd, init)[name := last.value];
      if name !in remove {
        assert Kept(table, ifd, tags, remove) == ki + [last];
        AddTagsSnoc(m, table, ifd, ki, last);
      } else {
        assert Kept(table, ifd, tags, remove) == ki;
      }
    }
  }

  lemma {:induction false} AddKeptOmits(m: map<string, TagValue>, table: TagTable, ifd: Ifd, tags: seq<Tag>,
                                        remove: seq<string>, n: string)
    requires n in remove && n !in m
    ensures n !in AddTags(m, table, ifd, Kept(table, ifd, tags, remove))
  {
    if tags != [] {
      var init, last := tags[..|tags| - 1], tags[|tags| - 1];
      var ki, name := Kept(table, ifd, init, remove), TagName(table, ifd, last.id);
      AddKeptOmits(m, table, ifd, init, remove, n);
      KeptSnoc(table, ifd, tags, remove);
      if name !in remove {
        assert Kept(table, ifd, tags, remove) == ki + [last];
        AddTagsSnoc(m, table, ifd, ki, last);
      } else {
        assert Kept(table, ifd, tags, remove) == ki;
      }
    }
  }

  lemma {:induction false} FlattenStrippedAt(d: ExifData, table: TagTable, remove: seq<string>, n: string)
    ensures n in remove ==> n !in Flatten(Stripped(d, table, remove), table)
    ensures n !in remove ==> AgreeOn(Flatten(Stripped(d, table, remove), table), Flatten(d, table), n)
  {
    if d != [] {
      var init := d[..|d| - 1];
      var s := Stripped(d, table, remove);
      assert s[..|s| - 1] == Stripped(init, table, remove);
      FlattenStrippedAt(init, table, remove, n);
      var last := d[|d| - 1];
      if last.ifd != Thumbnail {
        if n in remove {
          AddKeptOmits(Flatten(Stripped(init, table, remove), table), table, last.ifd, last.tags, remove, n);
        } else {
          AddKeptAgrees(Flatten(Stripped(init, table, remove), table), Flatten(init, table), table, last.ifd, last.tags, remove, n);
        }
      }
    }
  }

  /**
   * The strip and `get_exif_info` fit together: reading a stripped dictionary gives what
   * reading the original gives, minus exactly the removed names.
   */
  lemma InfoAfterStrip(d: ExifData, table: TagTable, remove: seq<string>)
    ensures Flatten(Stripped(d, table, remove), table) == Flatten(d, table) - (set n | n in remove)
  {
    var removed := set n | n in remove;
    var a := Flatten(Stripped(d, table, remove), table);
    var b := Flatten(d, table) - removed;
    forall n ensures (n in a <==> n in b) && (n in a ==> a[n] == b[n]) {
      FlattenStrippedAt(d, table, remove, n);
      assert n in removed <==> n in remove;
      assert n in b <==> n in Flatten(d, table) && n !in removed;
    }
    assert a.Keys == b.Keys;
  }

  // ---------------------------------------------------------------------------------------
  // The two removers

  /** `remove_all_exif`: re-save the image with an empty EXIF block (PNG: with `exif=None`). */
  function RemoveAllExif(path: string, outputPath: Option<string>, file: ImageFile): (r: Outcome)
    ensures r.Succeeded? <==> Classify(path) != Unsupported && file.image.Ok? && file.image.value.saveError.None?
    ensures r.Succeeded? ==> r.saved.target == OutputTarget(path, outputPath) && (r.saved.exif == EmptyExif || r.saved.exif == NoneExif)
    ensures Classify(path) == ExifContainer && r.Succeeded? ==>
      r.saved.exif == EmptyExif && r.saved.format == file.image.value.format
    ensures Classify(path) == Png && r.Succeeded? ==> r.saved.exif == NoneExif && r.saved.format == "PNG"
    ensures Classify(path) != Unsupported && file.image.Err? ==> r == Failed(file.image.error)
    ensures Classify(path) != Unsupported && file.image.Ok? && file.image.value.saveError.Some? ==>
      r == Failed(file.image.value.saveError.value)
    ensures Classify(path) == Unsupported ==> r == Failed(UnsupportedMessage(Extension(path)))
  {
    var target := OutputTarget(path, outputPath);
    match Classify(path)
    case ExifContainer =>
      (match file.image
       case Err(e) => Failed(e)
       case Ok(img) => Save(img, Saved(target, img.format, EmptyExif)))
    case Png =>
      (match file.image
       case Err(e) => Failed(e)
       case Ok(img) => Save(img, Saved(target, "PNG", NoneExif)))
    case Unsupported => Failed(UnsupportedMessage(Extension(path)))
  }

  /** `img.info.get('exif')` when it is present and non-empty. */
  predicate HasChunk(img: OpenedImage) {
    img.exifChunk.Some? && img.exifChunk.value.length > 0
  }

  /** The image has a non-empty EXIF chunk that `piexif.load` decodes. */
  predicate ReadableChunk(img: OpenedImage) {
    HasChunk(img) && img.exifChunk.value.decoded.Ok?
  }

  /** The dictionary `piexif.load` decodes from the image's chunk. */
  function ChunkData(img: OpenedImage): ExifData
    requires ReadableChunk(img)
  {
    img.exifChunk.value.decoded.value
  }

  /** What `remove_selected_exif` does, as a function of what the libraries report. */
  function SelectedRemoval(path: string, remove: seq<string>, outputPath: Option<string>, file: ImageFile, table: TagTable)
    : (r: Outcome)
    ensures r.Succeeded? ==> Classify(path) != Unsupported && file.image.Ok? && r.saved.target == OutputTarget(path, outputPath)
    ensures Classify(path) == ExifContainer && r.Succeeded? ==>
      r.saved.exif.Dumped? && r.saved.format == file.image.value.format
    ensures Classify(path) == Png && r.Succeeded? ==> r.saved.format == "PNG"
    ensures Classify(path) == Png && file.image.Ok? && !HasChunk(file.image.value) ==>
      r == Save(file.image.value, Saved(OutputTarget(path, outputPath), "PNG", Omitted))
    ensures Classify(path) != Unsupported && file.image.Err? ==> r == Failed(file.image.error)
    ensures Classify(path) == Unsupported ==> r == Failed(UnsupportedMessage(Extension(path)))
    ensures Classify(path) != Unsupported && file.image.Ok? && ReadableChunk(file.image.value) ==>
      (r.Succeeded? <==> file.image.value.saveError.None?) &&
      (r.Succeeded? ==> r.saved.exif == Dumped(Stripped(ChunkData(file.image.value), table, remove))) &&
      (file.image.value.saveError.Some? ==> r == Failed(file.image.value.saveError.value))
    ensures (Classify(path) != Unsupported && file.image.Ok? && HasChunk(file.image.value) &&
             file.image.value.exifChunk.value.decoded.Err?) ==>
      r == Failed(file.image.value.exifChunk.value.decoded.error)
    ensures r.Succeeded? && r.saved.exif.Dumped? ==> file.image.Ok? && ReadableChunk(file.image.value)
  {
    var target := OutputTarget(path, outputPath);
    match Classify(path)
    case ExifContainer =>
      (match file.image
       case Err(e) => Failed(e)
       case Ok(img) =>
         var blob := if HasChunk(img) then img.exifChunk.value else EmptyBlob;
         match blob.decoded
         case Err(e) => Failed(e)
         case Ok(d) => Save(img, Saved(target, img.format, Dumped(Stripped(d, table, remove)))))
    case Png =>
      (match file.image
       case Err(e) => Failed(e)
       case Ok(img) =>
         if HasChunk(img) then
           match img.exifChunk.value.decoded
           case Err(e) => Failed(e)
           case Ok(d) => Save(img, Saved(target, "PNG", Dumped(Stripped(d, table, remove))))
         else Save(img, Saved(target, "PNG", Omitted)))
    case Unsupported => Failed(UnsupportedMessage(Extension(path)))
  }

  /** `remove_selected_exif`. */
  method RemoveSelectedExif(path: string, remove: seq<string>, outputPath: Option<string>, file: ImageFile, table: TagTable)
    returns (r: Outcome)
    ensures r == SelectedRemoval(path, remove, outputPath, file, table)
  {
    var target := OutputTarget(path, outputPath);
    var kind := Classify(path);
    if kind == ExifContainer {
      match file.image {
        case Err(e) =>
          return Failed(e);
        case Ok(img) =>
          var blob := if HasChunk(img) then img.exifChunk.value else EmptyBlob;
          match blob.decoded {
            case Err(e) =>
              return Failed(e);
            case Ok(d) =>
              var stripped := StripTags(d, table, remove);
              return Save(img, Saved(target, img.format, Dumped(stripped)));
          }
      }
    } else if kind == Png {
      match file.image {
        case Err(e) =>
          return Failed(e);
        case Ok(img) =>
          if HasChunk(img) {
            match img.exifChunk.value.decoded {
              case Err(e) =>
                return Failed(e);
              case Ok(d) =>
                var stripped := StripTags(d, table, remove);
                return Save(img, Saved(target, "PNG", Dumped(stripped)));
            }
          }
          return Save(img, Saved(target, "PNG", Omitted));
      }
    }
    return Failed(UnsupportedMessage(Extension(path)));
  }

  /** Whatever EXIF a successful selective removal writes holds no tag with a removed name outside the thumbnail. */
  lemma SelectedRemovalWritesNoRemovedNames(path: string, remove: seq<string>, outputPath: Option<string>,
                                            file: ImageFile, table: TagTable, n: string)
    requires SelectedRemoval(path, remove, outputPath, file, table).Succeeded?
    ensures SelectedRemoval(path, remove, outputPath, file, table).saved.exif.Dumped? && n in remove ==>
      n !in Flatten(SelectedRemoval(path, remove, outputPath, file, table).saved.exif.data, table)
  {
    var saved := SelectedRemoval(path, remove, outputPath, file, table).saved;
    if saved.exif.Dumped? {
      var img := file.image.value;
      assert HasChunk(img);
      var d := img.exifChunk.value.decoded.value;
      assert saved.exif.data == Stripped(d, table, remove);
      FlattenStrippedAt(d, table, remove, n);
    }
  }

  /**
   * What a successful selective removal writes reads as the decoded chunk minus exactly the
   * removed names: every other tag outside the thumbnail is kept with its value.
   */
  lemma SelectedRemovalKeepsOthers(path: string, remove: seq<string>, outputPath: Option<string>,
                                   file: ImageFile, table: TagTable)
    requires SelectedRemoval(path, remove, outputPath, file, table).Succeeded?
    requires SelectedRemoval(path, remove, outputPath, file, table).saved.exif.Dumped?
    ensures file.image.Ok? && ReadableChunk(file.image.value)
    ensures Flatten(SelectedRemoval(path, remove, outputPath, file, table).saved.exif.data, table) ==
      Flatten(ChunkData(file.image.value), table) - (set n | n in remove)
  {
    InfoAfterStrip(ChunkData(file.image.value), table, remove);
  }

  /** A JPEG (or WEBP) without an EXIF chunk cannot be selectively stripped: piexif rejects the empty input. */
  lemma SelectedRemovalNeedsChunk(path: string, remove: seq<string>, outputPath: Option<string>, file: ImageFile, table: TagTable)
    requires Classify(path) == ExifContainer && file.image.Ok? && !HasChunk(file.image.value)
    ensures SelectedRemoval(path, remove, outputPath, file, table) == Failed(EmptyBlob.decoded.error)
  {
  }

  // ---------------------------------------------------------------------------------------
  // batch_process

  /** One entry of the batch result: `(file_path, success, error)`. */
  datatype FileResult = FileResult(path: string, success: bool, error: Option<string>)

  /** The removal the batch applies to one file: everything for "all", the named tags otherwise. */
  function ProcessOne(path: string, processType: string, tagsToRemove: Option<seq<string>>, file: ImageFile, table: TagTable)
    : (r: Outcome)
    ensures r.Succeeded? ==> r.saved.target == path
    ensures processType == "all" && r.Succeeded? ==> r.saved.exif == EmptyExif || r.saved.exif == NoneExif
    ensures processType != "all" && r.Succeeded? ==> r.saved.exif.Dumped? || r.saved.exif == Omitted
    ensures (processType != "all" && Classify(path) != Unsupported && file.image.Ok? && ReadableChunk(file.image.value) &&
             r.Succeeded?) ==> r.saved.exif == Dumped(Stripped(ChunkData(file.image.value), table, tagsToRemove.GetOr([])))
    ensures Classify(path) == Unsupported ==> r == Failed(UnsupportedMessage(Extension(path)))
  {
    if processType == "all" then RemoveAllExif(path, None, file)
    else SelectedRemoval(path, tagsToRemove.GetOr([]), None, file, table)
  }

  function ResultOf(path: string, r: Outcome): FileResult {
    FileResult(path, r.Success(), r.ErrorText())
  }

  /** The progress value reported after file `i` of `n`: `(i + 1) / n * 100`, as an exact rational. */
  function Progress(i: nat, n: nat): real
    requires n > 0
  {
    (i + 1) as real * 100.0 / n as real
  }

  /** `batch_process`: handle every file in order, report progress after each one when a callback is given. */
  method BatchProcess(files: seq<string>, processType: string, tagsToRemove: Option<seq<string>>, hasCallback: bool,
                      disk: string -> ImageFile, table: TagTable)
    returns (results: seq<FileResult>, reports: seq<real>)
    ensures |results| == |files|
    ensures forall i :: 0 <= i < |files| ==>
      results[i] == ResultOf(files[i], ProcessOne(files[i], processType, tagsToRemove, disk(files[i]), table))
    ensures hasCallback && |files| > 0 ==>
      |reports| == |files| && forall i :: 0 <= i < |files| ==> reports[i] == Progress(i, |files|)
    ensures !hasCallback || |files| == 0 ==> reports == []
  {
    results, reports := [], [];
    var total := |files|;
    for index := 0 to total
      invariant |results| == index
      invariant forall i :: 0 <= i < index ==>
        results[i] == ResultOf(files[i], ProcessOne(files[i], processType, tagsToRemove, disk(files[i]), table))
      invariant hasCallback && total > 0 ==>
        |reports| == index && forall i :: 0 <= i < index ==> reports[i] == Progress(i, total)
      invariant !hasCallback || total == 0 ==> reports == []
    {
      var path := files[index];
      var result: Outcome;
      if processType == "all" {
        result := RemoveAllExif(path, None, disk(path));
      } else {
        var remove := if tagsToRemove.Some? then tagsToRemove.value else [];
        result := RemoveSelectedExif(path, remove, None, disk(path), table);
      }
      assert result == ProcessOne(path, processType, tagsToRemove, disk(path), table);
      results := results + [ResultOf(path, result)];
      if hasCallback && total > 0 {
        reports := reports + [Progress(index, total)];
      }
    }
  }

  /** The reported progress strictly increases and stays within (0, 100]. */
  lemma ProgressIncreases(i: nat, j: nat, n: nat)
    requires i < j < n
    ensures 0.0 < Progress(i, n) < Progress(j, n) <= 100.0
  {
  }

  /** The last report is exactly 100. */
  lemma ProgressEndsAtHundred(n: nat)
    requires n > 0
    ensures Progress(n - 1, n) == 100.0
  {
  }
}
