/**
  The pure parts of the `ColorBuffer` interface: choosing a file format from
  a file name's extension, the filter setter, and the bounds rectangle.
*/
module ColorBuffers {
  import opened Wrappers

  datatype FileFormat = JPG | PNG

  datatype WrapMode = ClampToEdge | Repeat | MirroredRepeat

  datatype MinifyingFilter =
    | MinNearest | MinLinear
    | NearestMipmapNearest | LinearMipmapNearest | NearestMipmapLinear | LinearMipmapLinear

  datatype MagnifyingFilter = MagNearest | MagLinear

  /** The mutable sampling state of a colour buffer next to its fixed size. */
  datatype ColorBuffer = ColorBuffer(
    width: int,
    height: int,
    contentScale: real,
    wrapU: WrapMode,
    wrapV: WrapMode,
    filterMin: MinifyingFilter,
    filterMag: MagnifyingFilter,
    flipV: bool)

  datatype Vector2 = Vector2(x: real, y: real)

  datatype Rectangle = Rectangle(corner: Vector2, width: real, height: real)

  /** The exception `guessFromExtension` throws, carrying the lower-cased extension. */
  datatype FormatError = UnsupportedFormat(extension: string)

  function LowerChar(c: char): char {
    if 'A' <= c <= 'Z' then (c as int + ('a' as int - 'A' as int)) as char else c
  }

  /** Lower-casing, for the letters that can spell a supported extension. */
  function Lower(s: string): (r: string)
    ensures |r| == |s|
    ensures forall i :: 0 <= i < |s| ==> r[i] == LowerChar(s[i])
  {
    seq(|s|, i requires 0 <= i < |s| => LowerChar(s[i]))
  }

  /** Lower-casing twice changes nothing more. */
  lemma LowerIdempotent(s: string)
    ensures Lower(Lower(s)) == Lower(s)
  {
  }

  /**
    The extension of a file name: what follows its last `.`, or the empty
    string when the name has no `.`.
  */
  function Extension(name: string): (ext: string)
    ensures '.' !in ext
    ensures '.' !in name ==> ext == ""
    ensures '.' in name ==> |ext| < |name| && name[|name| - |ext| - 1] == '.' && name[|name| - |ext|..] == ext
    decreases |name|
  {
    if |name| == 0 then ""
    else if name[|name| - 1] == '.' then ""
    else
      var rest := Extension(name[..|name| - 1]);
      if '.' in name[..|name| - 1] then
        assert name[..|name| - 1][|name| - 1 - |rest|..] == rest;
        rest + [name[|name| - 1]]
      else
        assert '.' !in name;
        ""
  }

  /** The format a file is saved in when none is given. */
  function GuessFromExtension(ext: string): (r: Result<FileFormat, FormatError>)
    ensures r == Success(JPG) <==> Lower(ext) == "jpg" || Lower(ext) == "jpeg"
    ensures r == Success(PNG) <==> Lower(ext) == "png"
    ensures r.Failure? <==> Lower(ext) !in {"jpg", "jpeg", "png"}
    ensures r.Failure? ==> r.error == UnsupportedFormat(Lower(ext))
  {
    var e := Lower(ext);
    if e == "jpg" || e == "jpeg" then Success(JPG)
    else if e == "png" then Success(PNG)
    else Failure(UnsupportedFormat(e))
  }

  /**
    `guessFromExtension(file)` on the file's name. `name` is `File.name`,
    the last component of the path, so it holds no `/`; the extension of a
    directory name never counts. Only a name with a dot can be saved without
    naming a format, and a refused name reports the lower-cased text after
    its last dot.
  */
  function GuessFromFileName(name: string): (r: Result<FileFormat, FormatError>)
    ensures r.Success? ==> '.' in name && Lower(Extension(name)) in {"jpg", "jpeg", "png"}
    ensures r == Success(JPG) <==> Lower(Extension(name)) == "jpg" || Lower(Extension(name)) == "jpeg"
    ensures r == Success(PNG) <==> Lower(Extension(name)) == "png"
    ensures r.Failure? <==> Lower(Extension(name)) !in {"jpg", "jpeg", "png"}
    ensures r.Failure? ==> r.error == UnsupportedFormat(Lower(Extension(name))) && '.' !in r.error.extension
  {
    GuessFromExtension(Extension(name))
  }

  /** The guess depends only on the lower-cased extension. */
  lemma GuessIgnoresCase(ext: string)
    ensures GuessFromExtension(ext) == GuessFromExtension(Lower(ext))
  {
    LowerIdempotent(ext);
  }

  /** An upper-case extension is recognised. */
  lemma GuessUpperCase()
    ensures GuessFromFileName("photo.JPEG") == Success(JPG)
  {
    assert Extension("photo.JPEG") == "JPEG";
    assert Lower("JPEG") == "jpeg";
  }

  /** Only what follows the last dot counts. */
  lemma GuessLastDot()
    ensures GuessFromFileName("archive.tar.gz") == Failure(UnsupportedFormat("gz"))
  {
    assert Extension("archive.tar.gz") == "gz";
    assert Lower("gz") == "gz";
  }

  /** A name without a dot has the empty extension, which no format claims. */
  lemma GuessNoDot(name: string)
    requires '.' !in name
    ensures GuessFromFileName(name) == Failure(UnsupportedFormat(""))
  {
  }

  /** `filter(min, mag)`: sets both filters. */
  function Filter(b: ColorBuffer, filterMin: MinifyingFilter, filterMag: MagnifyingFilter): (r: ColorBuffer)
    ensures r.filterMin == filterMin && r.filterMag == filterMag
    ensures r.width == b.width && r.height == b.height && r.contentScale == b.contentScale
    ensures r.wrapU == b.wrapU && r.wrapV == b.wrapV && r.flipV == b.flipV
  {
    b.(filterMin := filterMin, filterMag := filterMag)
  }

  /** The second `filter` call overrides the first, and re-setting the current filters is a no-op. */
  lemma FilterLastWriteWins(b: ColorBuffer, min1: MinifyingFilter, mag1: MagnifyingFilter, min2: MinifyingFilter, mag2: MagnifyingFilter)
    ensures Filter(Filter(b, min1, mag1), min2, mag2) == Filter(b, min2, mag2)
    ensures Filter(b, b.filterMin, b.filterMag) == b
  {
  }

  /** The rectangle the buffer covers in device units. */
  function Bounds(b: ColorBuffer): (r: Rectangle)
    ensures r.corner == Vector2(0.0, 0.0)
    ensures r.width == b.width as real && r.height == b.height as real
  {
    Rectangle(Vector2(0.0, 0.0), b.width as real * 1.0, b.height as real * 1.0)
  }

  /**
    Membership in a closed rectangle. This is the model's own definition,
    used to read `bounds`; openrndr's `Rectangle.contains` is not part of
    this model.
  */
  predicate Contains(r: Rectangle, p: Vector2) {
    r.corner.x <= p.x <= r.corner.x + r.width && r.corner.y <= p.y <= r.corner.y + r.height
  }

  /**
    A pixel position lies within the bounds, read as a closed rectangle,
    exactly when it lies within the buffer's size.
  */
  lemma BoundsContains(b: ColorBuffer, x: int, y: int)
    ensures Contains(Bounds(b), Vector2(x as real, y as real)) <==> 0 <= x <= b.width && 0 <= y <= b.height
  {
  }
}
