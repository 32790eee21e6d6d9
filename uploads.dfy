/**
 * The image uploads of the form (identity card front and back, proof of address): which
 * files are accepted as JPG or PNG, the minimum resolution, and the order in which an
 * upload's `onChange` applies its checks.
 */
module Uploads {
  import opened Wrappers

  /** The part of a browser `File` the checks read: its MIME `type` and its `name`. */
  datatype File = File(mimeType: string, name: string)

  /** The MIME types accepted without looking at the name. */
  const AllowedTypes: seq<string> := ["image/jpeg", "image/png", "image/jpg", "image/pjpeg"]

  /** ASCII lower-casing, the case folding of a regular expression with the `i` flag on these letters. */
  function LowerAscii(c: char): char
  {
    if 'A' <= c <= 'Z' then (c as int + 32) as char else c
  }

  /** `c` is the letter `lower` in either case. */
  predicate Letter(c: char, lower: char)
    requires 'a' <= lower <= 'z'
  {
    LowerAscii(c) == lower
  }

  /**
   * `/\.(jpe?g|png)$/i`: the name ends with a dot followed by `jpg`, `jpeg` or `png`,
   * letters in either case, read as the pattern reads them from the end. It accepts exactly
   * the names ending in `.jpg`, `.jpeg` or `.png` in any case.
   */
  function ExtensionPattern(name: string): (r: bool)
    ensures r <==> HasImageExtension(name)
  {
    EndsWithJpg(name);
    EndsWithPng(name);
    EndsWithJpeg(name);
    var n := |name|;
    n >= 4 && Letter(name[n - 1], 'g') &&
    ((Letter(name[n - 2], 'p') && Letter(name[n - 3], 'j') && name[n - 4] == '.') ||
     (Letter(name[n - 2], 'n') && Letter(name[n - 3], 'p') && name[n - 4] == '.') ||
     (n >= 5 && Letter(name[n - 2], 'e') && Letter(name[n - 3], 'p') && Letter(name[n - 4], 'j') && name[n - 5] == '.'))
  }

  /**
   * `isAllowedImage`: no file is refused, an allowed MIME type is accepted, else the file name
   * decides: a file is accepted exactly when its type is allowed or its name ends in an image extension.
   */
  function IsAllowedImage(file: Option<File>): (r: bool)
    ensures r <==> file.Some? && (file.value.mimeType in AllowedTypes || HasImageExtension(file.value.name))
  {
    if file.None? then false
    else if file.value.mimeType in AllowedTypes then true
    else ExtensionPattern(file.value.name)
  }

  /** Every character lower-cased. */
  function LowerAll(s: string): (r: string)
    ensures |r| == |s|
    ensures forall i :: 0 <= i < |s| ==> r[i] == LowerAscii(s[i])
  {
    if s == [] then [] else [LowerAscii(s[0])] + LowerAll(s[1..])
  }

  /** The name ends with `ext`, compared without regard to case. */
  predicate EndsWithIgnoringCase(name: string, ext: string)
  {
    |ext| <= |name| && LowerAll(name[|name| - |ext|..]) == ext
  }

  /** The extensions the file name may carry. */
  predicate HasImageExtension(name: string)
  {
    EndsWithIgnoringCase(name, ".jpg") || EndsWithIgnoringCase(name, ".jpeg") || EndsWithIgnoringCase(name, ".png")
  }

  /** A four-character extension compared from the end, character by character. */
  lemma EndsWithFour(name: string, ext: string)
    requires |ext| == 4
    ensures EndsWithIgnoringCase(name, ext) <==>
              |name| >= 4 && LowerAscii(name[|name| - 4]) == ext[0] && LowerAscii(name[|name| - 3]) == ext[1]
              && LowerAscii(name[|name| - 2]) == ext[2] && LowerAscii(name[|name| - 1]) == ext[3]
  {
    if |name| >= 4 {
      var l := LowerAll(name[|name| - 4..]);
      assert l == ext <==> l[0] == ext[0] && l[1] == ext[1] && l[2] == ext[2] && l[3] == ext[3];
    }
  }

  lemma EndsWithFive(name: string, ext: string)
    requires |ext| == 5
    ensures EndsWithIgnoringCase(name, ext) <==>
              |name| >= 5 && LowerAscii(name[|name| - 5]) == ext[0] && LowerAscii(name[|name| - 4]) == ext[1]
              && LowerAscii(name[|name| - 3]) == ext[2] && LowerAscii(name[|name| - 2]) == ext[3]
              && LowerAscii(name[|name| - 1]) == ext[4]
  {
    if |name| >= 5 {
      var l := LowerAll(name[|name| - 5..]);
      assert l == ext <==> l[0] == ext[0] && l[1] == ext[1] && l[2] == ext[2] && l[3] == ext[3] && l[4] == ext[4];
    }
  }

  /** Each extension read from the end, letter by letter. */
  lemma EndsWithJpg(name: string)
    ensures EndsWithIgnoringCase(name, ".jpg") <==>
              |name| >= 4 && name[|name| - 4] == '.' && Letter(name[|name| - 3], 'j')
              && Letter(name[|name| - 2], 'p') && Letter(name[|name| - 1], 'g')
  {
    EndsWithFour(name, ".jpg");
    if |name| >= 4 {
      assert LowerAscii(name[|name| - 4]) == '.' <==> name[|name| - 4] == '.';
    }
  }

  lemma EndsWithPng(name: string)
    ensures EndsWithIgnoringCase(name, ".png") <==>
              |name| >= 4 && name[|name| - 4] == '.' && Letter(name[|name| - 3], 'p')
              && Letter(name[|name| - 2], 'n') && Letter(name[|name| - 1], 'g')
  {
    EndsWithFour(name, ".png");
    if |name| >= 4 {
      assert LowerAscii(name[|name| - 4]) == '.' <==> name[|name| - 4] == '.';
    }
  }

  lemma EndsWithJpeg(name: string)
    ensures EndsWithIgnoringCase(name, ".jpeg") <==>
              |name| >= 5 && name[|name| - 5] == '.' && Letter(name[|name| - 4], 'j') && Letter(name[|name| - 3], 'p')
              && Letter(name[|name| - 2], 'e') && Letter(name[|name| - 1], 'g')
  {
    EndsWithFive(name, ".jpeg");
    if |name| >= 5 {
      assert LowerAscii(name[|name| - 5]) == '.' <==> name[|name| - 5] == '.';
    }
  }

  /** The file name decides only through its last characters: what precedes an accepted extension does not matter. */
  lemma AnyStemAccepted(stem: string, ext: string, mimeType: string)
    requires LowerAll(ext) in [".jpg", ".jpeg", ".png"]
    ensures IsAllowedImage(Some(File(mimeType, stem + ext)))
  {
    var name := stem + ext;
    assert name[|name| - |ext|..] == ext;
    assert EndsWithIgnoringCase(name, LowerAll(ext));
    assert HasImageExtension(name);
  }

  /** A file whose type is not allowed and whose name does not end in `g` is refused. */
  lemma OtherNamesRefused(file: File)
    requires file.mimeType !in AllowedTypes
    requires file.name == [] || LowerAscii(file.name[|file.name| - 1]) != 'g'
    ensures !IsAllowedImage(Some(file))
  {
  }

  const MinImageWidth: nat := 800
  const MinImageHeight: nat := 600

  /** What loading the image reports: an error, or its natural and declared dimensions. */
  datatype ImageLoad = LoadFailed | Loaded(naturalWidth: nat, naturalHeight: nat, width: nat, height: nat)

  /** The answer of `checkImageResolution`. */
  datatype Resolution = Resolution(ok: bool, width: nat, height: nat)

  /** `natural || declared` on pixel counts: a zero natural size falls back to the declared one. */
  function OrDimension(natural: nat, declared: nat): (r: nat)
    ensures r == natural || r == declared
    ensures natural != 0 ==> r == natural
    ensures r == 0 <==> natural == 0 && declared == 0
  {
    if natural != 0 then natural else declared
  }

  /**
   * `checkImageResolution`: a loaded image passes when it is at least `minW` wide and
   * `minH` high; an image that fails to load is reported as 0×0 and never passes.
   */
  function CheckImageResolution(load: ImageLoad, minW: nat, minH: nat): (r: Resolution)
    ensures load.LoadFailed? ==> r == Resolution(false, 0, 0)
    ensures load.Loaded? ==>
              r.width == OrDimension(load.naturalWidth, load.width) && r.height == OrDimension(load.naturalHeight, load.height)
    ensures r.ok <==> load.Loaded? && r.width >= minW && r.height >= minH
  {
    match load
    case LoadFailed => Resolution(false, 0, 0)
    case Loaded(nw, nh, w0, h0) =>
      var w := OrDimension(nw, w0);
      var h := OrDimension(nh, h0);
      Resolution(w >= minW && h >= minH, w, h)
  }

  /** Lowering the thresholds never turns a passing image into a failing one. */
  lemma ResolutionMonotone(load: ImageLoad, minW: nat, minH: nat, minW': nat, minH': nat)
    requires minW' <= minW && minH' <= minH
    requires CheckImageResolution(load, minW, minH).ok
    ensures CheckImageResolution(load, minW', minH').ok
  {
  }

  /** With the form's thresholds a passing image is at least 800×600, and the reported size is the measured one. */
  lemma DefaultThresholds(load: ImageLoad)
    requires CheckImageResolution(load, MinImageWidth, MinImageHeight).ok
    ensures load.Loaded?
    ensures CheckImageResolution(load, MinImageWidth, MinImageHeight).width >= 800
    ensures CheckImageResolution(load, MinImageWidth, MinImageHeight).height >= 600
  {
  }

  // ---------------------------------------------------------------------------
  // The onChange of an upload input

  /** The three upload inputs. Only the back of the identity card depends on another. */
  datatype Slot = IdFront | IdBack | AddressProof

  /** Why an upload was refused; a low resolution carries the size that was measured. */
  datatype Rejection = WrongType | LowResolution(width: nat, height: nat) | FrontMissing

  /** What the handler does: nothing (no file chosen), refuse the file, or keep its name. */
  datatype UploadChange = NoFile | Rejected(reason: Rejection) | Accepted(name: string)

  /**
   * An upload's `onChange` given the first chosen file (if any), how it loads and whether
   * the front of the identity card is already present: type first, then resolution, and,
   * for the back, the front. A file is kept, under its own name, exactly when it is an
   * allowed image of sufficient resolution and, for the back, the front is present; each
   * refusal names the first check that failed.
   */
  function OnUpload(slot: Slot, file: Option<File>, load: ImageLoad, hasIdFront: bool): (r: UploadChange)
    ensures r.Accepted? <==>
              IsAllowedImage(file) && CheckImageResolution(load, MinImageWidth, MinImageHeight).ok
              && (slot == IdBack ==> hasIdFront)
    ensures r.Accepted? ==> r.name == file.value.name
    ensures file.Some? && !IsAllowedImage(file) ==> r == Rejected(WrongType)
    ensures r.Rejected? && r.reason.LowResolution? ==>
              IsAllowedImage(file) && !CheckImageResolution(load, MinImageWidth, MinImageHeight).ok
    ensures file.Some? && IsAllowedImage(file) && !CheckImageResolution(load, MinImageWidth, MinImageHeight).ok ==>
              r == Rejected(LowResolution(CheckImageResolution(load, MinImageWidth, MinImageHeight).width,
                                          CheckImageResolution(load, MinImageWidth, MinImageHeight).height))
    ensures r == Rejected(FrontMissing) <==>
              file.Some? && IsAllowedImage(file) && CheckImageResolution(load, MinImageWidth, MinImageHeight).ok
              && slot == IdBack && !hasIdFront
    ensures r == Rejected(FrontMissing) ==>
              slot == IdBack && !hasIdFront && IsAllowedImage(file)
              && CheckImageResolution(load, MinImageWidth, MinImageHeight).ok
    ensures r.NoFile? <==> file.None?
  {
    if file.None? then NoFile
    else if !IsAllowedImage(file) then Rejected(WrongType)
    else
      var res := CheckImageResolution(load, MinImageWidth, MinImageHeight);
      if !res.ok then Rejected(LowResolution(res.width, res.height))
      else if slot == IdBack && !hasIdFront then Rejected(FrontMissing)
      else Accepted(file.value.name)
  }

  /** An image that fails to load is refused for its resolution, reported as 0×0. */
  lemma BrokenImageRefused(slot: Slot, file: Option<File>, hasIdFront: bool)
    requires IsAllowedImage(file)
    ensures OnUpload(slot, file, LoadFailed, hasIdFront) == Rejected(LowResolution(0, 0))
  {
  }
}
