/**
 * `MarkupViewer`: the viewer's state and what its buttons, keys and mouse
 * drags do to it.  Dialogs are inputs (the folder chosen, the frame number
 * typed), message boxes are returned notices, and the folder is a listing
 * of names together with a `Disk` saying which paths exist, which images
 * decode and what each readable text file holds.
 */
module Viewer {
  import opened Wrappers
  import opened Text
  import opened Numbers
  import opened Paths
  import opened MarkupParser
  import opened FrameSearch

  /** The message boxes the viewer shows. */
  datatype Notice =
    | EndReached                                  // "End of list reached. Moving to first frame."
    | StartReached                                // "Start of list reached. Moving to last frame."
    | FrameNotFound(missing: int, target: int)    // "Frame <missing> not found. Moving to frame <target>."
    | LaterFramesNotFound(requested: int, target: int)
    | NoNumericFrames                             // "No files with numeric names found."
    | NoFilesFound                                // "No images or markup files found in the selected folder"
    | ImageLoadFailed(path: string)
    | MarkupMissing(imagePath: string)            // "No markup file found for <image>"
    | MarkupReadError(error: MarkupError)
    | IndexOutOfRange                             // the IndexError `image_files[current_index]` raises

  /** What the viewer can learn from the file system. */
  datatype Disk = Disk(decodable: set<string>, existing: set<string>, texts: map<string, string>)

  function ReadText(disk: Disk, path: string): Option<string> {
    if path in disk.texts then Some(disk.texts[path]) else None
  }

  /** The text shown in place of a markup path when an image has none. */
  const NoMarkupText := "Markup file not found"

  /** The markup path shown for an image and the records drawn over it. */
  datatype Overlay = Overlay(txtPath: string, markup: seq<MarkupRecord>)

  /** The outcome of showing an image: a new overlay unless the image fails to load, and the notices. */
  datatype Shown = Shown(overlay: Option<Overlay>, notices: seq<Notice>)

  /** `show_current_image` for one image path. */
  function ShowImage(imagePath: string, txtFiles: seq<string>, basePath: string, disk: Disk): Shown {
    if imagePath !in disk.decodable then Shown(None, [ImageLoadFailed(imagePath)])
    else match PairedMarkup(imagePath, txtFiles, basePath, disk.existing)
      case None => Shown(Some(Overlay(NoMarkupText, [])), [MarkupMissing(imagePath)])
      case Some(path) =>
        if path == [] then Shown(Some(Overlay(path, [])), [])
        else match ParseMarkup(ParseReal, ReadText(disk, path))
          case Err(e) => Shown(Some(Overlay(path, [])), [MarkupReadError(e)])
          case Ok(records) => Shown(Some(Overlay(path, records)), [])
  }

  /**
   * An image that fails to load changes no overlay; otherwise the records
   * drawn are those of the paired markup file, which carries the image's
   * frame number, and nothing is drawn when there is no such file or it
   * fails to parse, which is then reported.
   */
  lemma ShowImageSpec(imagePath: string, txtFiles: seq<string>, basePath: string, disk: Disk)
    ensures var s := ShowImage(imagePath, txtFiles, basePath, disk);
      var paired := PairedMarkup(imagePath, txtFiles, basePath, disk.existing);
      && (s.overlay.None? <==> imagePath !in disk.decodable)
      && (s.overlay.None? ==> s.notices == [ImageLoadFailed(imagePath)])
      && (s.overlay.Some? && paired.None? ==> s.overlay.value == Overlay(NoMarkupText, []) && s.notices == [MarkupMissing(imagePath)])
      && (s.overlay.Some? && paired.Some? ==>
            && s.overlay.value.txtPath == paired.value
            && FrameNumber(paired.value) == FrameNumber(imagePath)
            && (s.overlay.value.markup != [] ==> ParseMarkup(ParseReal, ReadText(disk, paired.value)) == Ok(s.overlay.value.markup))
            && (s.notices != [] <==> paired.value != [] && ParseMarkup(ParseReal, ReadText(disk, paired.value)).Err?))
  {
    PairedMarkupFrame(imagePath, txtFiles, basePath, disk.existing);
  }

  /**
   * One press of "Next" (forward) or "Previous": the new index and the
   * notice shown.  A numbered file moves to the search result and wraps
   * with a notice when that is the same index; an unnumbered file steps to
   * the neighbouring index modulo the list length.
   */
  function Step(files: seq<string>, i: nat, forward: bool): (nat, seq<Notice>)
    requires i < |files|
  {
    match FrameNumber(files[i])
    case Some(cur) => NumberedMove(files, i, cur, forward)
    case None =>
      if forward then
        var j := (i + 1) % |files|;
        (j, if j == 0 then [EndReached] else [])
      else
        ((i - 1) % |files|, if i == 0 then [StartReached] else [])
  }

  /** The step from the file at `i`, numbered `cur`: to the frame search's result, with its notice. */
  function NumberedMove(files: seq<string>, i: nat, cur: int, forward: bool): (nat, seq<Notice>) {
    match NextAvailable(files, cur, forward)
    case Some((j, num)) =>
      (j, if j == i then [if forward then EndReached else StartReached]
          else if forward && num != 0 && num > cur + 1 then [FrameNotFound(cur + 1, num)]
          else if !forward && num != 0 && num < cur - 1 then [FrameNotFound(cur - 1, num)]
          else [])
    case None => (i, [])
  }

  /** The body of `next_image` and `prev_image` once the list and index are known to be valid. */
  method StepFrom(files: seq<string>, i: nat, forward: bool) returns (j: nat, moved: seq<Notice>)
    requires i < |files|
    ensures (j, moved) == Step(files, i, forward)
  {
    moved := [];
    var current := FrameNumber(files[i]);
    if current.Some? {
      j, moved := NumberedStepFrom(files, i, current.value, forward);
    } else if forward {
      j := (i + 1) % |files|;
      if j == 0 {
        moved := [EndReached];
      }
    } else {
      var wasAtStart := i == 0;
      j := (i - 1) % |files|;
      if wasAtStart {
        moved := [StartReached];
      }
    }
  }

  /**
   * The numbered branch of `next_image` and `prev_image`, as executed: it
   * computes `NumberedMove` from the frame search, and stands apart so that
   * the proof of `StepFrom` stays small.
   */
  method NumberedStepFrom(files: seq<string>, i: nat, cur: int, forward: bool) returns (j: nat, moved: seq<Notice>)
    ensures (j, moved) == NumberedMove(files, i, cur, forward)
  {
    moved := [];
    var found := FindNextAvailableFrame(files, cur, forward);
    match found {
      case Some((index, frame)) =>
        if index == i {
          moved := [if forward then EndReached else StartReached];
        } else if forward && frame != 0 && frame > cur + 1 {
          moved := [FrameNotFound(cur + 1, frame)];
        } else if !forward && frame != 0 && frame < cur - 1 {
          moved := [FrameNotFound(cur - 1, frame)];
        }
        j := index;
      case None =>
        j := i;
    }
  }

  /** The folder's image list and markup list, as `open_folder` builds them. */
  method ListFiles(dir: string, entries: seq<string>) returns (images: seq<string>, texts: seq<string>)
    ensures images == SortNames(Glob(dir, entries, ImageExtension(entries)))
    ensures texts == SortNames(Glob(dir, entries, "txt"))
  {
    ImageExtensionPrecedence(dir, entries);
    images := SortNames(Glob(dir, entries, "jpeg"));
    if images == [] {
      images := SortNames(Glob(dir, entries, "jpg"));
    }
    if images == [] {
      images := SortNames(Glob(dir, entries, "png"));
    }
    texts := SortNames(Glob(dir, entries, "txt"));
  }

  /** A step never leaves the list. */
  lemma StepInRange(files: seq<string>, i: nat, forward: bool)
    requires i < |files|
    ensures Step(files, i, forward).0 < |files|
  {
  }

  /**
   * From a numbered file the step goes where `find_next_available_frame`
   * points; the wrap notice appears exactly when that is the current index,
   * and otherwise the gap notice appears exactly when the target frame is
   * non-zero and beyond the neighbouring frame number.
   */
  lemma NumberedStep(files: seq<string>, i: nat, forward: bool)
    requires i < |files| && FrameNumber(files[i]).Some?
    ensures var cur := FrameNumber(files[i]).value;
      var (j, notices) := Step(files, i, forward);
      && NextAvailable(files, cur, forward).Some?
      && var (target, num) := NextAvailable(files, cur, forward).value;
      && j == target
      && (notices == [if forward then EndReached else StartReached] <==> j == i)
      && (j != i ==> (notices != [] <==> num != 0 && (if forward then num > cur + 1 else num < cur - 1)))
      && (j != i && notices != [] ==> notices == [FrameNotFound(if forward then cur + 1 else cur - 1, num)])
  {
    FramesAt(files, i);
    assert Numbered(Frames(files), i);
    NextAvailableExists(files, FrameNumber(files[i]).value, forward);
  }

  /** From a file without a frame number, the step moves to the neighbouring index, wrapping around. */
  lemma UnnumberedStep(files: seq<string>, i: nat, forward: bool)
    requires i < |files| && FrameNumber(files[i]).None?
    ensures var (j, notices) := Step(files, i, forward);
      && (forward ==> j == if i == |files| - 1 then 0 else i + 1)
      && (!forward ==> j == if i == 0 then |files| - 1 else i - 1)
      && (notices != [] <==> (if forward then i == |files| - 1 else i == 0))
  {
    WrapIndex(i, |files|);
  }

  /** Python's `%` on the neighbouring indices of a list position. */
  lemma WrapIndex(i: nat, n: nat)
    requires i < n
    ensures (i + 1) % n == if i == n - 1 then 0 else i + 1
    ensures (i - 1) % n == if i == 0 then n - 1 else i - 1
  {
    if i == n - 1 {
      assert i + 1 == 1 * n;
    }
    if i == 0 {
      assert i - 1 == -1 * n + (n - 1);
    }
  }

  /** The index `jump_to_image` moves to, if any. */
  function JumpIndex(j: Jump): Option<nat> {
    match j
    case Exact(i) => Some(i)
    case Later(i, _) => Some(i)
    case Earliest(i, _) => Some(i)
    case NoNumeric => None
  }

  function JumpNotices(j: Jump, n: int): seq<Notice> {
    match j
    case Exact(_) => []
    case Later(_, v) => [FrameNotFound(n, v)]
    case Earliest(_, v) => [LaterFramesNotFound(n, v)]
    case NoNumeric => [NoNumericFrames]
  }

  /**
   * The images "Select Folder" looks for: ".jpeg" files, else ".jpg"
   * files, else ".png" files.
   */
  function ImageExtension(entries: seq<string>): string {
    if exists e :: e in entries && MatchesExtension(e, "jpeg") then "jpeg"
    else if exists e :: e in entries && MatchesExtension(e, "jpg") then "jpg"
    else "png"
  }

  /** The first extension in the order jpeg, jpg, png that some entry has is the one listed. */
  lemma ImageExtensionPrecedence(dir: string, entries: seq<string>)
    ensures var ext := ImageExtension(entries);
      && (Glob(dir, entries, "jpeg") != [] ==> ext == "jpeg")
      && (Glob(dir, entries, "jpeg") == [] && Glob(dir, entries, "jpg") != [] ==> ext == "jpg")
      && (Glob(dir, entries, "jpeg") == [] && Glob(dir, entries, "jpg") == [] ==> ext == "png")
  {
    GlobEmpty(dir, entries, "jpeg");
    GlobEmpty(dir, entries, "jpg");
  }

  /**
   * The part of `show_current_image` after the image has loaded: the markup
   * path, its records and the notices. It computes the loaded case of
   * `ShowImage` step by step, and stands apart so that the proof of
   * `ShowCurrentImage` stays small.
   */
  method LoadOverlay(imagePath: string, txtFiles: seq<string>, basePath: string, disk: Disk)
    returns (txt: string, markup: seq<MarkupRecord>, notices: seq<Notice>)
    requires imagePath in disk.decodable
    ensures ShowImage(imagePath, txtFiles, basePath, disk) == Shown(Some(Overlay(txt, markup)), notices)
  {
    var txtPath := FindMarkupPath(imagePath, txtFiles, basePath, disk.existing);
    notices := [];
    markup := [];
    match txtPath {
      case None =>
        notices := [MarkupMissing(imagePath)];
        txt := NoMarkupText;
      case Some(path) =>
        txt := path;
        if path != [] {
          var parsed := ParseMarkupFile(ParseReal, ReadText(disk, path));
          match parsed {
            case Ok(records) => markup := records;
            case Err(e) => notices := [MarkupReadError(e)];
          }
        }
    }
  }

  class MarkupViewer {
    var currentIndex: nat
    var imageFiles: seq<string>
    var txtFiles: seq<string>
    var basePath: string
    var currentImagePath: string
    var currentTxtPath: string
    /** The records drawn over the image on display. */
    var shownMarkup: seq<MarkupRecord>
    var zoomFactor: real
    const zoomStep: real := 0.1
    var panning: bool
    var startX: int
    var startY: int

    /** The zoom factor stays positive. */
    predicate Valid()
      reads this
    {
      zoomFactor > 0.0
    }

    constructor()
      ensures Valid()
      ensures currentIndex == 0 && imageFiles == [] && txtFiles == [] && basePath == []
      ensures currentImagePath == [] && currentTxtPath == [] && shownMarkup == []
      ensures zoomFactor == 1.0 && !panning && startX == 0 && startY == 0
    {
      currentIndex := 0;
      imageFiles := [];
      txtFiles := [];
      basePath := [];
      currentImagePath := [];
      currentTxtPath := [];
      shownMarkup := [];
      zoomFactor := 1.0;
      panning := false;
      startX := 0;
      startY := 0;
    }

    /** The image at the current index, as `ShowImage` presents it. */
    function View(disk: Disk): Shown
      reads this
      requires currentIndex < |imageFiles|
    {
      ShowImage(imageFiles[currentIndex], txtFiles, basePath, disk)
    }

    /** The display fields hold the overlay of `s`, or `txt` and `markup` when `s` has none. */
    predicate Showing(s: Shown, txt: string, markup: seq<MarkupRecord>)
      reads this
    {
      && currentTxtPath == (if s.overlay.Some? then s.overlay.value.txtPath else txt)
      && shownMarkup == (if s.overlay.Some? then s.overlay.value.markup else markup)
    }

    /** `show_current_image`: nothing when the index is past the list, else the image at the index. */
    method ShowCurrentImage(disk: Disk) returns (notices: seq<Notice>)
      modifies this
      ensures currentIndex == old(currentIndex) && imageFiles == old(imageFiles) && txtFiles == old(txtFiles)
      ensures basePath == old(basePath) && zoomFactor == old(zoomFactor)
      ensures panning == old(panning) && startX == old(startX) && startY == old(startY)
      ensures currentIndex >= |imageFiles| ==>
        currentImagePath == old(currentImagePath) && currentTxtPath == old(currentTxtPath) && shownMarkup == old(shownMarkup) && notices == []
      ensures currentIndex < |imageFiles| ==>
        && currentImagePath == imageFiles[currentIndex]
        && Showing(View(disk), old(currentTxtPath), old(shownMarkup))
        && notices == View(disk).notices
    {
      if imageFiles == [] || currentIndex >= |imageFiles| {
        return [];
      }
      var imagePath := imageFiles[currentIndex];
      currentImagePath := imagePath;
      if imagePath !in disk.decodable {
        return [ImageLoadFailed(imagePath)];
      }
      var txt, markup;
      txt, markup, notices := LoadOverlay(imagePath, txtFiles, basePath, disk);
      currentTxtPath := txt;
      shownMarkup := markup;
    }

    /** `open_folder` with the folder chosen (empty when cancelled) and its entries. */
    method OpenFolder(chosen: string, entries: seq<string>, disk: Disk) returns (notices: seq<Notice>)
      requires Valid()
      modifies this
      ensures Valid()
      ensures basePath == chosen
      ensures panning == old(panning) && startX == old(startX) && startY == old(startY)
      ensures chosen == [] ==>
        && imageFiles == old(imageFiles) && txtFiles == old(txtFiles) && currentIndex == old(currentIndex)
        && zoomFactor == old(zoomFactor) && currentImagePath == old(currentImagePath)
        && currentTxtPath == old(currentTxtPath) && shownMarkup == old(shownMarkup) && notices == []
      ensures chosen != [] ==>
        && imageFiles == SortNames(Glob(chosen, entries, ImageExtension(entries)))
        && txtFiles == SortNames(Glob(chosen, entries, "txt"))
      ensures chosen != [] && (imageFiles == [] || txtFiles == []) ==>
        && currentIndex == old(currentIndex) && zoomFactor == old(zoomFactor)
        && currentImagePath == old(currentImagePath) && currentTxtPath == old(currentTxtPath)
        && shownMarkup == old(shownMarkup) && notices == [NoFilesFound]
      ensures chosen != [] && imageFiles != [] && txtFiles != [] ==>
        && currentIndex == 0 && zoomFactor == 1.0
        && currentImagePath == imageFiles[0]
        && Showing(View(disk), old(currentTxtPath), old(shownMarkup))
        && notices == View(disk).notices
    {
      basePath := chosen;
      if chosen == [] {
        return [];
      }
      imageFiles, txtFiles := ListFiles(chosen, entries);
      if imageFiles == [] || txtFiles == [] {
        return [NoFilesFound];
      }
      notices := ShowFirst(disk);
    }

    /** The end of `open_folder` once both lists are non-empty: back to the first image at 100%. */
    method ShowFirst(disk: Disk) returns (notices: seq<Notice>)
      requires imageFiles != []
      modifies this
      ensures Valid()
      ensures imageFiles == old(imageFiles) && txtFiles == old(txtFiles) && basePath == old(basePath)
      ensures panning == old(panning) && startX == old(startX) && startY == old(startY)
      ensures currentIndex == 0 && zoomFactor == 1.0
      ensures currentImagePath == imageFiles[0]
      ensures Showing(View(disk), old(currentTxtPath), old(shownMarkup))
      ensures notices == View(disk).notices
    {
      currentIndex := 0;
      ResetZoom();
      notices := ShowCurrentImage(disk);
    }

    /** `next_image` (forward) and `prev_image`. */
    method Navigate(forward: bool, disk: Disk) returns (notices: seq<Notice>)
      requires Valid()
      modifies this
      ensures Valid()
      ensures imageFiles == old(imageFiles) && txtFiles == old(txtFiles) && basePath == old(basePath)
      ensures zoomFactor == old(zoomFactor) && panning == old(panning) && startX == old(startX) && startY == old(startY)
      ensures imageFiles == [] || old(currentIndex) >= |imageFiles| ==>
        && currentIndex == old(currentIndex) && currentImagePath == old(currentImagePath)
        && currentTxtPath == old(currentTxtPath) && shownMarkup == old(shownMarkup)
        && notices == (if imageFiles == [] then [] else [IndexOutOfRange])
      ensures imageFiles != [] && old(currentIndex) < |imageFiles| ==>
        var (target, moved) := Step(imageFiles, old(currentIndex), forward);
        && currentIndex == target && currentIndex < |imageFiles|
        && currentImagePath == imageFiles[currentIndex]
        && Showing(View(disk), old(currentTxtPath), old(shownMarkup))
        && notices == moved + View(disk).notices
    {
      if imageFiles == [] {
        return [];
      }
      if currentIndex >= |imageFiles| {
        return [IndexOutOfRange];
      }
      StepInRange(imageFiles, currentIndex, forward);
      var target, moved := StepFrom(imageFiles, currentIndex, forward);
      currentIndex := target;
      var shown := ShowCurrentImage(disk);
      notices := moved + shown;
    }

    /** `jump_to_image` with the number typed into the dialog, or `None` when it is cancelled. */
    method JumpToImage(answer: Option<int>, disk: Disk) returns (notices: seq<Notice>)
      requires Valid()
      modifies this
      ensures Valid()
      ensures imageFiles == old(imageFiles) && txtFiles == old(txtFiles) && basePath == old(basePath)
      ensures zoomFactor == old(zoomFactor) && panning == old(panning) && startX == old(startX) && startY == old(startY)
      ensures imageFiles == [] || answer.None? || JumpIndex(JumpTarget(imageFiles, answer.value)).None? ==>
        && currentIndex == old(currentIndex) && currentImagePath == old(currentImagePath)
        && currentTxtPath == old(currentTxtPath) && shownMarkup == old(shownMarkup)
        && notices == (if imageFiles == [] || answer.None? then [] else [NoNumericFrames])
      ensures imageFiles != [] && answer.Some? && JumpIndex(JumpTarget(imageFiles, answer.value)).Some? ==>
        var jump := JumpTarget(imageFiles, answer.value);
        && currentIndex == JumpIndex(jump).value && currentIndex < |imageFiles|
        && currentImagePath == imageFiles[currentIndex]
        && Showing(View(disk), old(currentTxtPath), old(shownMarkup))
        && notices == JumpNotices(jump, answer.value) + View(disk).notices
    {
      if imageFiles == [] || answer.None? {
        return [];
      }
      var n := answer.value;
      JumpTargetSpec(imageFiles, n);
      var jump := JumpSearch(imageFiles, n);
      match jump {
        case NoNumeric =>
          return [NoNumericFrames];
        case Exact(i) =>
          currentIndex := i;
        case Later(i, _) =>
          currentIndex := i;
        case Earliest(i, _) =>
          currentIndex := i;
      }
      var shown := ShowCurrentImage(disk);
      notices := JumpNotices(jump, n) + shown;
    }

    /** `zoom_in`: one step larger. */
    method ZoomIn()
      requires Valid()
      modifies this
      ensures Valid()
      ensures zoomFactor == old(zoomFactor) + zoomStep
      ensures currentIndex == old(currentIndex) && imageFiles == old(imageFiles) && panning == old(panning)
      ensures txtFiles == old(txtFiles) && basePath == old(basePath) && currentImagePath == old(currentImagePath)
      ensures currentTxtPath == old(currentTxtPath) && shownMarkup == old(shownMarkup)
      ensures startX == old(startX) && startY == old(startY)
    {
      zoomFactor := zoomFactor + zoomStep;
    }

    /** `zoom_out`: one step smaller, unless that would reach zero. */
    method ZoomOut()
      requires Valid()
      modifies this
      ensures Valid()
      ensures zoomFactor == if old(zoomFactor) > zoomStep then old(zoomFactor) - zoomStep else old(zoomFactor)
      ensures currentIndex == old(currentIndex) && imageFiles == old(imageFiles) && panning == old(panning)
      ensures txtFiles == old(txtFiles) && basePath == old(basePath) && currentImagePath == old(currentImagePath)
      ensures currentTxtPath == old(currentTxtPath) && shownMarkup == old(shownMarkup)
      ensures startX == old(startX) && startY == old(startY)
    {
      if zoomFactor > zoomStep {
        zoomFactor := zoomFactor - zoomStep;
      }
    }

    /** `reset_zoom`: back to 100%. */
    method ResetZoom()
      modifies this
      ensures Valid() && zoomFactor == 1.0
      ensures currentIndex == old(currentIndex) && imageFiles == old(imageFiles) && txtFiles == old(txtFiles)
      ensures basePath == old(basePath) && currentImagePath == old(currentImagePath)
      ensures currentTxtPath == old(currentTxtPath) && shownMarkup == old(shownMarkup)
      ensures panning == old(panning) && startX == old(startX) && startY == old(startY)
    {
      zoomFactor := 1.0;
    }

    /** `start_pan`: the button is down at (x, y). */
    method StartPan(x: int, y: int)
      modifies this
      ensures panning && startX == x && startY == y
      ensures zoomFactor == old(zoomFactor) && currentIndex == old(currentIndex) && imageFiles == old(imageFiles)
      ensures txtFiles == old(txtFiles) && basePath == old(basePath) && currentImagePath == old(currentImagePath)
      ensures currentTxtPath == old(currentTxtPath) && shownMarkup == old(shownMarkup)
    {
      panning := true;
      startX := x;
      startY := y;
    }

    /**
     * `pan_image`: while panning, the view scrolls by the distance moved
     * since the last event, and the event position becomes the new start.
     */
    method PanImage(x: int, y: int) returns (scroll: Option<(int, int)>)
      modifies this
      ensures !old(panning) ==> scroll.None? && startX == old(startX) && startY == old(startY)
      ensures old(panning) ==> scroll == Some((x - old(startX), y - old(startY))) && startX == x && startY == y
      ensures panning == old(panning) && zoomFactor == old(zoomFactor) && currentIndex == old(currentIndex) && imageFiles == old(imageFiles)
      ensures txtFiles == old(txtFiles) && basePath == old(basePath) && currentImagePath == old(currentImagePath)
      ensures currentTxtPath == old(currentTxtPath) && shownMarkup == old(shownMarkup)
    {
      if !panning {
        return None;
      }
      scroll := Some((x - startX, y - startY));
      startX := x;
      startY := y;
    }

    /** `stop_pan` */
    method StopPan()
      modifies this
      ensures !panning && startX == old(startX) && startY == old(startY)
      ensures zoomFactor == old(zoomFactor) && currentIndex == old(currentIndex) && imageFiles == old(imageFiles)
      ensures txtFiles == old(txtFiles) && basePath == old(basePath) && currentImagePath == old(currentImagePath)
      ensures currentTxtPath == old(currentTxtPath) && shownMarkup == old(shownMarkup)
    {
      panning := false;
    }
  }
}
