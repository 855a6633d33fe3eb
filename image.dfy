/** core/image.js: choosing the alpha-mask file of an image, copying the
    mask's red channel into the image's alpha channel, slicing a sprite sheet
    into frames, and the two memo caches of loadImage and loadSpriteSheet.
    The browser is abstracted: whether a URL answers 200 is membership in a
    set, and what an image file decodes to is a function `decode`. */
module Image {
  import opened Arithmetic

  /** One byte of a canvas ImageData buffer (a Uint8ClampedArray). */
  newtype byte = x: int | 0 <= x < 256

  // ---------------------------------------------------------------------
  // JavaScript string operations used by applyAlphaMask

  /** s.lastIndexOf(c): the last position holding `c`, or -1. */
  function LastIndexOf(s: string, c: char): (i: int)
    ensures -1 <= i < |s|
    ensures 0 <= i ==> s[i] == c
    decreases |s|
  {
    if |s| == 0 then -1
    else if s[|s| - 1] == c then |s| - 1
    else LastIndexOf(s[..|s| - 1], c)
  }

  function Clamp(i: int, n: nat): (r: nat)
    ensures r <= n
    ensures 0 <= i <= n ==> r == i
  {
    if i < 0 then 0 else if i > n then n else i
  }

  /** s.substring(start, end): both ends are clamped into [0, |s|] and
      swapped when start > end (so a -1 from lastIndexOf acts as 0). */
  function Substring(s: string, start: int, end: int): string
  {
    var a, b := Clamp(start, |s|), Clamp(end, |s|);
    if a <= b then s[a..b] else s[b..a]
  }

  /** image.js:31, the file name between the last '/' and the last '.'. */
  function BaseName(filename: string): string
  {
    Substring(filename, LastIndexOf(filename, '/') + 1, LastIndexOf(filename, '.'))
  }

  /** image.js:36, candidate A: `_` inserted before the extension's dot. */
  function MaskBesideExtension(filename: string): string
  {
    var dot := LastIndexOf(filename, '.');
    Substring(filename, 0, dot) + "_." + Substring(filename, dot + 1, |filename|)
  }

  /** image.js:37, candidate B: `_` put in front of the file name. */
  function MaskBeforeName(filename: string): string
  {
    var slash := LastIndexOf(filename, '/');
    Substring(filename, 0, slash) + "/_" + Substring(filename, slash + 1, |filename|)
  }

  /** A base name that starts or ends with `_` names a mask image itself. */
  predicate IsMaskName(base: string)
  {
    |base| > 0 && (base[0] == '_' || base[|base| - 1] == '_')
  }

  /** The mask filename applyAlphaMask settles on; `existing` is the set of
      URLs for which `fetch` answers status 200. */
  function MaskFilename(filename: string, existing: set<string>): (m: string)
    ensures IsMaskName(BaseName(filename)) ==> m == filename
    ensures !IsMaskName(BaseName(filename)) ==>
      (m == "" <==> MaskBesideExtension(filename) !in existing && MaskBeforeName(filename) !in existing)
    ensures !IsMaskName(BaseName(filename)) && m != "" ==>
      m in existing && (m == MaskBesideExtension(filename) || m == MaskBeforeName(filename))
    ensures !IsMaskName(BaseName(filename)) && MaskBesideExtension(filename) in existing ==>
      m == MaskBesideExtension(filename)
  {
    if IsMaskName(BaseName(filename)) then filename
    else if MaskBesideExtension(filename) in existing then MaskBesideExtension(filename)
    else if MaskBeforeName(filename) in existing then MaskBeforeName(filename)
    else ""
  }

  /** For a path `dir/name.ext` (no '/' after `dir`, no '.' in `ext`) the
      index arithmetic of image.js:31-37 yields the base name `name` and the
      two candidates `dir/name_.ext` and `dir/_name.ext`. */
  lemma MaskCandidatesOfPath(dir: string, name: string, ext: string)
    requires '/' !in name && '/' !in ext && '.' !in ext
    ensures BaseName(dir + "/" + name + "." + ext) == name
    ensures MaskBesideExtension(dir + "/" + name + "." + ext) == dir + "/" + name + "_." + ext
    ensures MaskBeforeName(dir + "/" + name + "." + ext) == dir + "/_" + name + "." + ext
  {
    var f := dir + "/" + name + "." + ext;
    var slash, dot := |dir|, |dir| + 1 + |name|;
    PathSeparators(dir, name, ext);
    PathSlices(f, dir, name, ext);
    assert BaseName(f) == name by {
      SubstringInRange(f, slash + 1, dot);
    }
    assert MaskBesideExtension(f) == dir + "/" + name + "_." + ext by {
      SubstringInRange(f, 0, dot);
      SubstringInRange(f, dot + 1, |f|);
    }
    assert MaskBeforeName(f) == dir + "/_" + name + "." + ext by {
      SubstringInRange(f, 0, slash);
      SubstringInRange(f, slash + 1, |f|);
    }
  }

  lemma SubstringInRange(s: string, start: int, end: int)
    requires 0 <= start <= end <= |s|
    ensures Substring(s, start, end) == s[start..end]
  {
  }

  lemma PathSlices(f: string, dir: string, name: string, ext: string)
    requires f == dir + "/" + name + "." + ext
    ensures f[|dir| + 1..|dir| + 1 + |name|] == name
    ensures f[..|dir| + 1 + |name|] == dir + "/" + name
    ensures f[|dir| + 2 + |name|..] == ext
    ensures f[..|dir|] == dir
    ensures f[|dir| + 1..] == name + "." + ext
  {
    assert f == (dir + "/" + name) + ("." + ext);
    assert f == dir + ("/" + (name + "." + ext));
  }

  /** In `dir/name.ext` the last '/' follows `dir` and the last '.' follows
      `name`. */
  lemma PathSeparators(dir: string, name: string, ext: string)
    requires '/' !in name && '/' !in ext && '.' !in ext
    ensures LastIndexOf(dir + "/" + name + "." + ext, '/') == |dir|
    ensures LastIndexOf(dir + "/" + name + "." + ext, '.') == |dir| + 1 + |name|
  {
    var f := dir + "/" + name + "." + ext;
    PathCharacters(f, dir, name, ext);
    LastIndexOfIs(f, '/', |dir|);
    LastIndexOfIs(f, '.', |dir| + 1 + |name|);
  }

  lemma PathCharacters(f: string, dir: string, name: string, ext: string)
    requires '/' !in name && '/' !in ext && '.' !in ext
    requires f == dir + "/" + name + "." + ext
    ensures f[|dir|] == '/' && f[|dir| + 1 + |name|] == '.'
    ensures forall k :: |dir| < k < |f| ==> f[k] != '/'
    ensures forall k :: |dir| + 1 + |name| < k < |f| ==> f[k] != '.'
  {
    var slash, dot := |dir|, |dir| + 1 + |name|;
    forall k | slash < k < |f|
      ensures f[k] != '/'
    {
      if k < dot {
        assert f[k] == name[k - slash - 1];
      } else if k > dot {
        assert f[k] == ext[k - dot - 1];
      }
    }
    forall k | dot < k < |f|
      ensures f[k] != '.'
    {
      assert f[k] == ext[k - dot - 1];
    }
  }

  /** The last occurrence is the occurrence with none after it. */
  lemma LastIndexOfIs(s: string, c: char, j: int)
    requires 0 <= j < |s| && s[j] == c
    requires forall k :: j < k < |s| ==> s[k] != c
    ensures LastIndexOf(s, c) == j
  {
    NoneAfterLast(s, c);
  }

  /** No occurrence of c follows LastIndexOf(s, c); for -1, none at all. */
  lemma {:induction false} NoneAfterLast(s: string, c: char)
    ensures forall k :: LastIndexOf(s, c) < k < |s| ==> s[k] != c
    decreases |s|
  {
    if |s| > 0 && s[|s| - 1] != c {
      var t := s[..|s| - 1];
      NoneAfterLast(t, c);
      assert forall k :: 0 <= k < |t| ==> s[k] == t[k];
    }
  }

  /** `${DATA_PATH}/images/_MBREFLECTION.gif` (index.js:119) is its own
      mask, whatever the data directory and whatever files exist. */
  lemma ReflectionIsItsOwnMask(dataPath: string, existing: set<string>)
    ensures MaskFilename(dataPath + "/images/_MBREFLECTION.gif", existing) == dataPath + "/images/_MBREFLECTION.gif"
  {
    var dir, name, ext := dataPath + "/images", "_MBREFLECTION", "gif";
    assert dataPath + "/images/_MBREFLECTION.gif" == dir + "/" + name + "." + ext;
    assert '/' !in name && '/' !in ext && '.' !in ext;
    MaskCandidatesOfPath(dir, name, ext);
    assert IsMaskName(name);
  }

  // ---------------------------------------------------------------------
  // The alpha copy loop (image.js:61-63)

  /** The buffer after the loop: in every 4-byte pixel the alpha byte takes
      the first (red) byte of the same pixel of `mask`. */
  function AlphaMasked(data: seq<byte>, mask: seq<byte>): (r: seq<byte>)
    requires |mask| == |data|
    ensures |r| == |data|
    decreases |data|
  {
    if |data| < 4 then data
    else data[..3] + [mask[0]] + AlphaMasked(data[4..], mask[4..])
  }

  lemma {:induction false} AlphaMaskedAt(data: seq<byte>, mask: seq<byte>, k: nat)
    requires |mask| == |data| && k < |data|
    ensures AlphaMasked(data, mask)[k] == if k % 4 == 3 then mask[k - 3] else data[k]
    decreases |data|
  {
    if |data| >= 4 && k >= 4 {
      AlphaMaskedAt(data[4..], mask[4..], k - 4);
    }
  }

  /** Among the four bytes of the pixel starting at i, only the last one is
      an alpha byte. */
  lemma AlphaSlot(i: int, k: int)
    requires i % 4 == 0 && i <= k < i + 4
    ensures k % 4 == 3 <==> k == i + 3
  {
    DivModUnique(k, 4, i / 4, k - i);
  }

  /** for (i = 0; i < data.length; i += 4) data[i + 3] = mask[i];
      A write past the end of a typed array is ignored, hence the guard. */
  method CopyAlpha(data: array<byte>, mask: seq<byte>)
    requires |mask| == data.Length
    modifies data
    ensures data[..] == AlphaMasked(old(data[..]), mask)
    ensures forall k :: 0 <= k < data.Length && k % 4 != 3 ==> data[k] == old(data[k])
  {
    var i := 0;
    while i < data.Length
      invariant 0 <= i && i % 4 == 0
      invariant forall k :: 0 <= k < data.Length ==>
        data[k] == if k < i && k % 4 == 3 then mask[k - 3] else old(data[k])
    {
      if i + 3 < data.Length {
        data[i + 3] := mask[i];
      }
      forall k | i <= k < i + 4
        ensures k % 4 == 3 <==> k == i + 3
      {
        AlphaSlot(i, k);
      }
      i := i + 4;
    }
    ghost var before := old(data[..]);
    forall k | 0 <= k < data.Length
      ensures data[..][k] == AlphaMasked(before, mask)[k]
    {
      AlphaMaskedAt(before, mask, k);
    }
  }

  // ---------------------------------------------------------------------
  // Canvas images

  /** width x height RGBA pixels, row by row. */
  datatype Picture = Picture(width: nat, height: nat, rgba: seq<byte>)
  type Bitmap = p: Picture | |p.rgba| == 4 * p.width * p.height witness Picture(0, 0, [])

  /** Cell (col, row) of a w x h grid in row-major order lies inside it. */
  lemma CellInGrid(col: nat, row: nat, w: nat, h: nat)
    requires col < w && row < h
    ensures row * w + col < h * w
  {
    MulLeq(row + 1, h, w);
    assert (row + 1) * w == row * w + w;
  }

  lemma PixelIndexInRange(px: nat, py: nat, w: nat, h: nat, c: nat)
    requires px < w && py < h && c < 4
    ensures (py * w + px) * 4 + c < 4 * w * h
  {
    CellInGrid(px, py, w, h);
    var cell := py * w + px;
    assert cell + 1 <= h * w;
    assert cell * 4 + 4 <= (h * w) * 4;
    assert (h * w) * 4 == 4 * w * h;
  }

  lemma PositiveWidth(w: nat, h: nat, k: nat)
    requires k < 4 * w * h
    ensures w > 0
  {

  }

  /** The byte at offset k of the canvas after `top` is drawn opaquely at
      (0, 0) over `base` (image.js:58-59): inside `top` it is top's byte,
      elsewhere base's. */
  function OverlayByte(base: Bitmap, top: Bitmap, k: nat): byte
    requires k < |base.rgba|
  {
    PositiveWidth(base.width, base.height, k);
    var p := k / 4;
    var px, py := p % base.width, p / base.width;
    if px < top.width && py < top.height then
      PixelIndexInRange(px, py, top.width, top.height, k % 4);
      top.rgba[(py * top.width + px) * 4 + k % 4]
    else base.rgba[k]
  }

  function Overlay(base: Bitmap, top: Bitmap): (r: seq<byte>)
    ensures |r| == |base.rgba|
  {
    seq(|base.rgba|, k requires 0 <= k < |base.rgba| => OverlayByte(base, top, k))
  }

  /** Two images of the same size: the overlay is the top image itself. */
  lemma OverlaySameSize(base: Bitmap, top: Bitmap)
    requires base.width == top.width && base.height == top.height
    ensures Overlay(base, top) == top.rgba
  {
    forall k | 0 <= k < |base.rgba| ensures Overlay(base, top)[k] == top.rgba[k] {
      PositiveWidth(base.width, base.height, k);
      var w := base.width;
      var p := k / 4;
      var px, py := p % w, p / w;
      DivModUnique(k, 4, p, k % 4);
      DivModUnique(p, w, py, px);
      assert p * 4 + k % 4 < 4 * w * base.height;
      assert (py * w + px) * 4 + k % 4 == k;
    }
  }

  // ---------------------------------------------------------------------
  // Sprite sheets (image.js:76-94)

  /** One cut-out frame: the crop rectangle in the sheet and the size of the
      canvas it is drawn on (a canvas truncates its width and height). */
  datatype Sprite = Sprite(cropX: real, cropY: real, cropWidth: real, cropHeight: real, width: int, height: int)

  function SpriteAt(imageWidth: nat, imageHeight: nat, rowCount: nat, colCount: nat, row: nat, col: nat): (s: Sprite)
    requires 0 < rowCount && 0 < colCount
    ensures s.cropX == col as real * s.cropWidth && s.cropY == row as real * s.cropHeight
    ensures s.cropWidth * colCount as real == imageWidth as real
    ensures s.cropHeight * rowCount as real == imageHeight as real
    ensures 0 <= s.width && s.width as real <= s.cropWidth < s.width as real + 1.0
  {
    var w := imageWidth as real / colCount as real;
    var h := imageHeight as real / rowCount as real;
    Sprite(col as real * w, row as real * h, w, h, w.Floor, h.Floor)
  }

  /** Index k of a row-major sheet with `n` columns is row k / n, column k % n. */
  lemma RowMajor(r: nat, c: nat, n: nat)
    requires c < n
    ensures (r * n + c) / n == r && (r * n + c) % n == c
  {
    DivModUnique(r * n + c, n, r, c);
  }

  /** The sprites of a rowCount x colCount sheet in row-major order. */
  function Sheet(imageWidth: nat, imageHeight: nat, rowCount: nat, colCount: nat): (s: seq<Sprite>)
    ensures |s| == rowCount * colCount
  {
    if rowCount == 0 || colCount == 0 then [] else
    seq(rowCount * colCount, k requires 0 <= k =>
      SpriteAt(imageWidth, imageHeight, rowCount, colCount, k / colCount, k % colCount))
  }

  lemma SheetAt(imageWidth: nat, imageHeight: nat, rowCount: nat, colCount: nat, row: nat, col: nat)
    requires row < rowCount && col < colCount
    ensures row * colCount + col < rowCount * colCount
    ensures Sheet(imageWidth, imageHeight, rowCount, colCount)[row * colCount + col]
         == SpriteAt(imageWidth, imageHeight, rowCount, colCount, row, col)
  {
    RowMajor(row, col, colCount);
    CellInGrid(col, row, colCount, rowCount);
    assert rowCount * colCount == colCount * rowCount;
  }

  /** loadSpriteSheetByImage: two nested loops push one canvas per frame. */
  method SliceSheet(imageWidth: nat, imageHeight: nat, rowCount: nat, colCount: nat) returns (sprites: seq<Sprite>)
    ensures sprites == Sheet(imageWidth, imageHeight, rowCount, colCount)
  {
    sprites := [];
    var rowI := 0;
    while rowI < rowCount
      invariant 0 <= rowI <= rowCount
      invariant |sprites| == rowI * colCount
      invariant forall k :: 0 <= k < |sprites| ==>
        colCount > 0 && sprites[k] == SpriteAt(imageWidth, imageHeight, rowCount, colCount, k / colCount, k % colCount)
    {
      var colI := 0;
      while colI < colCount
        invariant 0 <= colI <= colCount
        invariant |sprites| == rowI * colCount + colI
        invariant forall k :: 0 <= k < |sprites| ==>
          colCount > 0 && sprites[k] == SpriteAt(imageWidth, imageHeight, rowCount, colCount, k / colCount, k % colCount)
      {
        // the sheet's width and height divided by the column and row counts
        var sprite := SpriteAt(imageWidth, imageHeight, rowCount, colCount, rowI, colI);
        RowMajor(rowI, colI, colCount);
        sprites := sprites + [sprite];
        colI := colI + 1;
      }
      rowI := rowI + 1;
      assert |sprites| == rowI * colCount;
    }
    if rowCount > 0 && colCount > 0 {
      assert |sprites| == rowCount * colCount;
    }
  }

  // ---------------------------------------------------------------------
  // The loaders and their caches

  /** The asset side of the browser plus the two caches, which image.js
      keeps as properties of the functions loadImage and loadSpriteSheet. */
  class Loader {
    /** What each file decodes to (image.onload). */
    const decode: string -> Bitmap
    /** The URLs that answer status 200. */
    const existing: set<string>
    var images: map<string, Bitmap>
    var sheets: map<string, seq<Sprite>>

    /** Every cached image is what its file decodes to. */
    ghost predicate Valid()
      reads this
    {
      forall f :: f in images ==> images[f] == decode(f)
    }

    constructor (decode: string -> Bitmap, existing: set<string>)
      ensures this.decode == decode && this.existing == existing
      ensures images == map[] && sheets == map[]
      ensures Valid()
    {
      this.decode := decode;
      this.existing := existing;
      images := map[];
      sheets := map[];
    }

    /** loadImage: the first call for a filename stores its entry, later calls return that entry. */
    method LoadImage(filename: string) returns (p: Bitmap)
      modifies this`images
      ensures filename in old(images) ==> p == old(images)[filename] && images == old(images)
      ensures filename !in old(images) ==> p == decode(filename) && images == old(images)[filename := p]
      ensures old(Valid()) ==> Valid() && p == decode(filename)
    {
      if filename in images {
        p := images[filename];
        return;
      }
      images := images[filename := decode(filename)];
      p := images[filename];
    }

    /** What applyAlphaMask yields for a file, given the assets. */
    function MaskedImage(filename: string): (p: Bitmap)
      ensures p.width == decode(filename).width && p.height == decode(filename).height
      ensures MaskFilename(filename, existing) == "" ==> p == decode(filename)
      ensures forall k :: 0 <= k < |p.rgba| && k % 4 != 3 ==> p.rgba[k] == decode(filename).rgba[k]
    {
      var mask := MaskFilename(filename, existing);
      var image := decode(filename);
      if mask == "" then image
      else
        var data := AlphaMasked(image.rgba, Overlay(image, decode(mask)));
        assert forall k :: 0 <= k < |data| && k % 4 != 3 ==> data[k] == image.rgba[k] by {
          forall k | 0 <= k < |data| && k % 4 != 3 ensures data[k] == image.rgba[k] {
            AlphaMaskedAt(image.rgba, Overlay(image, decode(mask)), k);
          }
        }
        Picture(image.width, image.height, data)
    }

    /** applyAlphaMask: returns the image itself when there is no mask,
        otherwise a copy whose alpha bytes come from the mask. */
    method ApplyAlphaMask(filename: string) returns (p: Bitmap)
      requires Valid()
      modifies this`images
      ensures Valid() && p == MaskedImage(filename)
      ensures var mask := MaskFilename(filename, existing);
        images.Keys == old(images).Keys + {filename} + (if mask == "" then {} else {mask})
    {
      var maskFilename := MaskFilename(filename, existing);
      var image := LoadImage(filename);
      if maskFilename == "" {
        p := image;
        return;
      }
      var imageData := new byte[|image.rgba|](k requires 0 <= k < |image.rgba| => image.rgba[k]);
      assert imageData[..] == image.rgba;
      var mask := LoadImage(maskFilename);
      var maskData := Overlay(image, mask);
      CopyAlpha(imageData, maskData);
      p := Picture(image.width, image.height, imageData[..]);
    }

    /** loadSpriteSheet: memoised by filename alone, so a later call with
        other row or column counts still returns the first sheet. */
    method LoadSpriteSheet(filename: string, rowCount: nat, colCount: nat) returns (sheet: seq<Sprite>)
      requires Valid()
      modifies this`images, this`sheets
      ensures Valid()
      ensures filename in old(sheets) ==>
        sheet == old(sheets)[filename] && sheets == old(sheets) && images == old(images)
      ensures filename !in old(sheets) ==>
        sheet == Sheet(MaskedImage(filename).width, MaskedImage(filename).height, rowCount, colCount)
        && sheets == old(sheets)[filename := sheet]
      ensures var mask := MaskFilename(filename, existing);
        filename !in old(sheets) ==>
          images.Keys == old(images).Keys + {filename} + (if mask == "" then {} else {mask})
    {
      if filename in sheets {
        sheet := sheets[filename];
        return;
      }
      var image := ApplyAlphaMask(filename);
      sheet := SliceSheet(image.width, image.height, rowCount, colCount);
      sheets := sheets[filename := sheet];
    }
  }
}
