/**
 * How the file handler's notion of a supported image (pathlib's suffix) relates to the
 * EXIF processor's dispatch (os.path.splitext of the lower-cased path).
 */
module Agreement {
  import opened Strings
  import opened Paths
  import opened FileHandling
  import opened ExifProcessing

  /**
   * For an ordinary file name `stem + ext` the two agree: the files the folder scan offers
   * are exactly the files the processor handles.
   */
  lemma ScanAndDispatchAgree(stem: string, ext: string)
    requires stem != [] && '/' !in stem && stem[|stem| - 1] != '.'
    requires |ext| >= 2 && ext[0] == '.' && '.' !in ext[1..] && '/' !in ext
    ensures IsSupportedImage(stem + ext) <==> Classify(stem + ext) != Unsupported
  {
    SupportedByExtension(stem, ext);
    ClassifyByExtension(stem, ext);
  }

  /**
   * A name made of dots before its extension splits them apart: pathlib sees the suffix
   * ".jpg" in "..jpg", so the folder scan offers the file, while splitext treats the leading
   * dots as part of the name, so the processor reports it as unsupported.
   */
  lemma LeadingDotsDisagree()
    ensures IsSupportedImage("..jpg")
    ensures Classify("..jpg") == Unsupported
  {
    DotsScanned();
    DotsRefused();
  }

  lemma DotsScanned()
    ensures IsSupportedImage("..jpg")
  {
    DotsLower();
    DotsSuffix();
    assert Lower(PathSuffix("..jpg")) == SupportedFormats[0];
  }

  lemma DotsRefused()
    ensures Classify("..jpg") == Unsupported
  {
    DotsLower();
    DotsExtension();
    assert Extension("..jpg") == "";
  }

  lemma DotsLower()
    ensures Lower("..jpg") == "..jpg"
    ensures Lower(".jpg") == ".jpg"
  {
    var name := "..jpg";
    forall k | 0 <= k < |name| ensures Lower(name)[k] == name[k] {
      LowerAt(name, k);
    }
    assert name[1..] == ".jpg";
    LowerAppend(name[..1], name[1..]);
    assert name[..1] + name[1..] == name;
  }

  /** pathlib: the name is the whole string and the last dot starts a suffix. */
  lemma DotsSuffix()
    ensures PathSuffix("..jpg") == ".jpg"
  {
    var name := "..jpg";
    PathNameOfPlain(name);
    RFindLast(name, '.');
    assert RFind(name, '.') == 1;
  }

  /** splitext: only dots precede the last dot, so there is no extension. */
  lemma DotsExtension()
    ensures SplitExt("..jpg") == ""
  {
    var name := "..jpg";
    RFindLast(name, '.');
    assert name[1] == '.' && name[2] != '.' && name[3] != '.' && name[4] != '.';
    assert RFind(name, '.') == 1;
    RFindLast(name, '/');
    assert RFind(name, '/') == -1;
    assert !HasNonDot(name, 0, 1);
  }
}
