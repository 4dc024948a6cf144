/**
 * The searches the viewer makes over its list of image paths: the frame
 * number of a path, the next or previous available frame, the scans of
 * `jump_to_image`, and the pairing of an image with its markup file.
 */
module FrameSearch {
  import opened Wrappers
  import opened Text
  import opened Numbers
  import opened Paths

  /** `get_frame_number`: the integer value of the file's stem, if it has one. */
  function FrameNumber(path: string): Option<int> {
    ParseInt(Stem(path))
  }

  /** A file named after a frame number, with any extension, has that frame number. */
  lemma FrameNumberOfName(dir: string, n: int, ext: string)
    requires ext != [] && IsExtensionTail(ext)
    ensures FrameNumber(Join(dir, IntToString(n) + "." + ext)) == Some(n)
  {
    var digits := IntToString(n);
    assert NoSlash(digits) by {
      forall i | 0 <= i < |digits| ensures digits[i] != '/' { assert IsDigit(digits[i]) || digits[i] == '-'; }
    }
    StemOfJoin(dir, digits, ext);
  }

  /** The frame numbers of the files, in list order. */
  function Frames(files: seq<string>): (nums: seq<Option<int>>)
    ensures |nums| == |files|
  {
    if files == [] then [] else Frames(files[..|files| - 1]) + [FrameNumber(files[|files| - 1])]
  }

  lemma {:induction false} FramesAt(files: seq<string>, k: int)
    requires 0 <= k < |files|
    ensures Frames(files)[k] == FrameNumber(files[k])
    decreases |files|
  {
    var init := files[..|files| - 1];
    if k < |files| - 1 {
      FramesAt(init, k);
      assert init[k] == files[k];
    }
  }

  /** `get_frame_number(files[i])`, the frame number the scans read at each step. */
  method FrameAt(files: seq<string>, i: nat) returns (number: Option<int>)
    requires i < |files|
    ensures number == Frames(files)[i]
  {
    number := FrameNumber(files[i]);
    FramesAt(files, i);
  }

  predicate Numbered(nums: seq<Option<int>>, k: int) {
    0 <= k < |nums| && nums[k].Some?
  }

  // ---------------------------------------------------------------------
  // Scanning the numbered files in a sorted order

  /**
   * The order in which a search visits the numbered files: by increasing
   * number, by decreasing number (the `reversed` scan, so the later of two
   * equal numbers comes first), or by increasing number with frame 0 moved
   * after all others (the sort key `get_frame_number(x) or float('inf')`).
   * Python's sort is stable, so equal keys keep their list order.
   */
  datatype Order = Ascending | Descending | ZeroLast

  /** The file numbered `v` at position `p` comes no later than the file numbered `w` at `k`. */
  predicate Precedes(order: Order, v: int, p: int, w: int, k: int) {
    match order
    case Ascending => v < w || (v == w && p <= k)
    case Descending => v > w || (v == w && p >= k)
    case ZeroLast => (v != 0 && (w == 0 || v < w)) || (v == w && p <= k)
  }

  /** A file numbered `v` later in the list comes before the best one so far, numbered `w`. */
  predicate Replaces(order: Order, v: int, w: int) {
    match order
    case Ascending => v < w
    case Descending => v >= w
    case ZeroLast => v != 0 && (w == 0 || v < w)
  }

  /** Whether a frame number passes the search's test: beyond `bound` in the direction of the order. */
  predicate Eligible(order: Order, bound: Option<int>, v: int) {
    bound.None? || (if order == Descending then v < bound.value else v > bound.value)
  }

  predicate Candidate(nums: seq<Option<int>>, order: Order, bound: Option<int>, k: int) {
    Numbered(nums, k) && Eligible(order, bound, nums[k].value)
  }

  /** Position and number of the first eligible frame in the order of the search. */
  function Pick(nums: seq<Option<int>>, order: Order, bound: Option<int>): (r: Option<(nat, int)>)
    ensures r.Some? ==> Candidate(nums, order, bound, r.value.0) && nums[r.value.0] == Some(r.value.1)
  {
    if nums == [] then None
    else
      var init := nums[..|nums| - 1];
      var best := Pick(init, order, bound);
      var last := |nums| - 1;
      assert best.Some? ==> init[best.value.0] == nums[best.value.0];
      match nums[last]
      case Some(v) =>
        if Eligible(order, bound, v) && (best.None? || Replaces(order, v, best.value.1)) then Some((last, v)) else best
      case None => best
  }

  /**
   * `Pick` finds the first eligible frame in the order of the search, and
   * finds nothing exactly when no frame is eligible.
   */
  lemma {:induction false} PickSpec(nums: seq<Option<int>>, order: Order, bound: Option<int>)
    ensures Pick(nums, order, bound).None? <==> forall k :: !Candidate(nums, order, bound, k)
    ensures Pick(nums, order, bound).Some? ==>
      var (p, v) := Pick(nums, order, bound).value;
      forall k :: Candidate(nums, order, bound, k) ==> Precedes(order, v, p, nums[k].value, k)
  {
    if nums != [] {
      var init := nums[..|nums| - 1];
      var last := |nums| - 1;
      PickSpec(init, order, bound);
      assert forall k :: 0 <= k < last ==> init[k] == nums[k];
      assert forall k :: 0 <= k < last ==> (Candidate(nums, order, bound, k) <==> Candidate(init, order, bound, k));
    }
  }

  /**
   * The scan over the list: the loop that collects the numbered files, and
   * the first of them in the search's order.
   */
  method PickScan(files: seq<string>, order: Order, bound: Option<int>) returns (r: Option<(nat, int)>)
    ensures r == Pick(Frames(files), order, bound)
  {
    ghost var nums := Frames(files);
    r := None;
    var n := 0;
    while n < |files|
      invariant 0 <= n <= |files|
      invariant r == Pick(nums[..n], order, bound)
    {
      var number := FrameAt(files, n);
      PickStep(nums, n, order, bound);
      if number.Some? && Eligible(order, bound, number.value) && (r.None? || Replaces(order, number.value, r.value.1)) {
        r := Some((n, number.value));
      }
      n := n + 1;
    }
    assert nums[..n] == nums;
  }

  /** One more frame considered by the scan. */
  lemma PickStep(nums: seq<Option<int>>, n: int, order: Order, bound: Option<int>)
    requires 0 <= n < |nums|
    ensures var best := Pick(nums[..n], order, bound);
      Pick(nums[..n + 1], order, bound) ==
        if nums[n].Some? && Eligible(order, bound, nums[n].value) && (best.None? || Replaces(order, nums[n].value, best.value.1))
        then Some((n, nums[n].value)) else best
  {
    assert nums[..n + 1][..n] == nums[..n];
  }

  /** `list.index`: the first position holding `x`. */
  function IndexOf(s: seq<string>, x: string): (i: nat)
    requires x in s
    ensures i < |s| && s[i] == x
    ensures forall k :: 0 <= k < i ==> s[k] != x
  {
    if s[0] == x then 0 else 1 + IndexOf(s[1..], x)
  }

  /**
   * In an order that keeps list order among equal numbers, no earlier entry
   * holds the path of the frame found, so `list.index` gives its position back.
   */
  lemma IndexOfFirstInOrder(files: seq<string>, order: Order, bound: Option<int>)
    requires order != Descending && Pick(Frames(files), order, bound).Some?
    ensures var p := Pick(Frames(files), order, bound).value.0;
      p < |files| && IndexOf(files, files[p]) == p
  {
    var nums := Frames(files);
    var (p, v) := Pick(nums, order, bound).value;
    PickSpec(nums, order, bound);
    forall k | 0 <= k < p ensures files[k] != files[p] {
      FramesAt(files, k);
      FramesAt(files, p);
      if nums[k] == Some(v) {
        assert Candidate(nums, order, bound, k);
      }
    }
  }

  // ---------------------------------------------------------------------
  // find_next_available_frame

  /**
   * `find_next_available_frame`: the list index and number of the nearest
   * frame after (or before) `current`; when there is none, index 0 (or the
   * last index) with the smallest (or largest) frame number.
   */
  function NextAvailable(files: seq<string>, current: int, forward: bool): (r: Option<(nat, int)>)
    ensures r.Some? ==> r.value.0 < |files|
  {
    if files == [] then None
    else
      var order := if forward then Ascending else Descending;
      match Pick(Frames(files), order, Some(current))
      case Some((p, v)) => Some((IndexOf(files, files[p]), v))
      case None =>
        match Pick(Frames(files), order, None)
        case None => None
        case Some((_, v)) => Some((if forward then 0 else |files| - 1, v))
  }

  method FindNextAvailableFrame(files: seq<string>, current: int, forward: bool) returns (r: Option<(nat, int)>)
    ensures r == NextAvailable(files, current, forward)
  {
    if files == [] {
      return None;
    }
    var order := if forward then Ascending else Descending;
    var hit := PickScan(files, order, Some(current));
    if hit.Some? {
      return Some((IndexOf(files, files[hit.value.0]), hit.value.1));
    }
    var any := PickScan(files, order, None);
    if any.None? {
      return None;
    }
    return Some((if forward then 0 else |files| - 1, any.value.1));
  }

  /** The search finds something exactly when some file has a frame number. */
  lemma NextAvailableExists(files: seq<string>, current: int, forward: bool)
    ensures NextAvailable(files, current, forward).Some? ==> exists k :: Numbered(Frames(files), k)
    ensures (exists k :: Numbered(Frames(files), k)) ==> NextAvailable(files, current, forward).Some?
  {
    var nums := Frames(files);
    var order := if forward then Ascending else Descending;
    PickSpec(nums, order, Some(current));
    PickSpec(nums, order, None);
    if k :| Numbered(nums, k) {
      assert Candidate(nums, order, None, k);
    }
  }

  /**
   * Forward search: the first file, in list order, holding the smallest
   * frame number above `current`; with no such number, index 0 and the
   * smallest frame number of all, whatever file index 0 holds.
   */
  lemma ForwardSearch(files: seq<string>, current: int)
    requires NextAvailable(files, current, true).Some?
    ensures var nums := Frames(files);
      var (i, v) := NextAvailable(files, current, true).value;
      if exists k :: Numbered(nums, k) && nums[k].value > current then
        && nums[i] == Some(v) && v > current
        && (forall k :: Numbered(nums, k) && nums[k].value > current ==> v <= nums[k].value)
        && (forall k :: 0 <= k < i ==> nums[k] != Some(v))
      else
        && i == 0
        && (exists k :: 0 <= k < |nums| && nums[k] == Some(v))
        && (forall k :: Numbered(nums, k) ==> v <= nums[k].value)
  {
    var nums := Frames(files);
    PickSpec(nums, Ascending, Some(current));
    PickSpec(nums, Ascending, None);
    if k :| Numbered(nums, k) && nums[k].value > current {
      assert Candidate(nums, Ascending, Some(current), k);
      IndexOfFirstInOrder(files, Ascending, Some(current));
      var (p, v) := Pick(nums, Ascending, Some(current)).value;
      forall k | 0 <= k < p ensures nums[k] != Some(v) {
        if nums[k] == Some(v) { assert Candidate(nums, Ascending, Some(current), k); }
      }
    } else {
      forall k | Numbered(nums, k) ensures Pick(nums, Ascending, None).value.1 <= nums[k].value {
        assert Candidate(nums, Ascending, None, k);
      }
    }
  }

  /** No frame after position `p` is `v`. */
  predicate LastWith(nums: seq<Option<int>>, p: nat, v: int) {
    forall k :: p < k < |nums| ==> nums[k] != Some(v)
  }

  /**
   * Backward search: the largest frame number below `current`, at the first
   * occurrence of the path that holds it last in the list; with no such
   * number, the last index and the largest frame number of all.
   */
  lemma BackwardSearch(files: seq<string>, current: int)
    requires NextAvailable(files, current, false).Some?
    ensures var nums := Frames(files);
      var (i, v) := NextAvailable(files, current, false).value;
      if exists k :: Numbered(nums, k) && nums[k].value < current then
        && nums[i] == Some(v) && v < current
        && (forall k :: Numbered(nums, k) && nums[k].value < current ==> v >= nums[k].value)
        && (exists p :: i <= p < |files| && files[p] == files[i] && LastWith(nums, p, v))
      else
        && i == |files| - 1
        && (exists k :: 0 <= k < |nums| && nums[k] == Some(v))
        && (forall k :: Numbered(nums, k) ==> v >= nums[k].value)
  {
    var nums := Frames(files);
    if exists k :: Numbered(nums, k) && nums[k].value < current {
      BackwardHit(files, current);
    } else {
      BackwardWrap(files, current);
    }
  }

  lemma BackwardHit(files: seq<string>, current: int)
    requires NextAvailable(files, current, false).Some?
    requires exists k :: Numbered(Frames(files), k) && Frames(files)[k].value < current
    ensures var nums := Frames(files);
      var (i, v) := NextAvailable(files, current, false).value;
      && nums[i] == Some(v) && v < current
      && (forall k :: Numbered(nums, k) && nums[k].value < current ==> v >= nums[k].value)
      && (exists p :: i <= p < |files| && files[p] == files[i] && LastWith(nums, p, v))
  {
    var nums := Frames(files);
    BackwardPick(nums, current);
    var (p, v) := Pick(nums, Descending, Some(current)).value;
    var i := IndexOf(files, files[p]);
    assert NextAvailable(files, current, false) == Some((i, v));
    FramesAt(files, p);
    FramesAt(files, i);
    assert i <= p && files[p] == files[i];
    assert nums[i] == Some(v);
  }

  /** The descending scan below `current` finds the largest such number, last in the list among equals. */
  lemma BackwardPick(nums: seq<Option<int>>, current: int)
    requires exists k :: Numbered(nums, k) && nums[k].value < current
    ensures Pick(nums, Descending, Some(current)).Some?
    ensures var (p, v) := Pick(nums, Descending, Some(current)).value;
      && p < |nums| && nums[p] == Some(v) && v < current
      && (forall k :: Numbered(nums, k) && nums[k].value < current ==> v >= nums[k].value)
      && LastWith(nums, p, v)
  {
    PickSpec(nums, Descending, Some(current));
    var k :| Numbered(nums, k) && nums[k].value < current;
    assert Candidate(nums, Descending, Some(current), k);
    var (p, v) := Pick(nums, Descending, Some(current)).value;
    forall k | Numbered(nums, k) && nums[k].value < current ensures v >= nums[k].value {
      assert Candidate(nums, Descending, Some(current), k);
    }
    forall k | p < k < |nums| ensures nums[k] != Some(v) {
      if nums[k] == Some(v) { assert Candidate(nums, Descending, Some(current), k); }
    }
  }

  lemma BackwardWrap(files: seq<string>, current: int)
    requires NextAvailable(files, current, false).Some?
    requires forall k :: Numbered(Frames(files), k) ==> Frames(files)[k].value >= current
    ensures var nums := Frames(files);
      var (i, v) := NextAvailable(files, current, false).value;
      && i == |files| - 1
      && (exists k :: 0 <= k < |nums| && nums[k] == Some(v))
      && (forall k :: Numbered(nums, k) ==> v >= nums[k].value)
  {
    var nums := Frames(files);
    PickSpec(nums, Descending, Some(current));
    assert Pick(nums, Descending, Some(current)).None? by {
      forall k ensures !Candidate(nums, Descending, Some(current), k) { }
    }
    PickSpec(nums, Descending, None);
    var (p, v) := Pick(nums, Descending, None).value;
    assert NextAvailable(files, current, false) == Some((|files| - 1, v));
    assert 0 <= p < |nums| && nums[p] == Some(v);
    assert Frames(files)[p] == Some(NextAvailable(files, current, false).value.1);
    forall k | Numbered(nums, k) ensures v >= nums[k].value {
      assert Candidate(nums, Descending, None, k);
    }
  }

  predicate Distinct(files: seq<string>) {
    forall i, j :: 0 <= i < j < |files| ==> files[i] != files[j]
  }

  /** With distinct paths, as a directory listing has, the backward search lands on the last file holding the frame. */
  lemma BackwardSearchDistinct(files: seq<string>, current: int)
    requires Distinct(files) && NextAvailable(files, current, false).Some?
    requires exists k :: Numbered(Frames(files), k) && Frames(files)[k].value < current
    ensures var (i, v) := NextAvailable(files, current, false).value;
      forall k :: i < k < |files| ==> Frames(files)[k] != Some(v)
  {
    BackwardSearch(files, current);
    var nums := Frames(files);
    var (i, v) := NextAvailable(files, current, false).value;
    var p :| i <= p < |files| && files[p] == files[i] && LastWith(nums, p, v);
    assert p == i;
  }

  // ---------------------------------------------------------------------
  // jump_to_image

  /** Position of the first frame equal to `n`. */
  function FirstWith(nums: seq<Option<int>>, n: int): (r: Option<nat>)
    ensures r.Some? ==> r.value < |nums| && nums[r.value] == Some(n)
    ensures r.Some? ==> forall k :: 0 <= k < r.value ==> nums[k] != Some(n)
    ensures r.None? ==> forall k :: 0 <= k < |nums| ==> nums[k] != Some(n)
  {
    if nums == [] then None
    else if nums[0] == Some(n) then Some(0)
    else
      match FirstWith(nums[1..], n)
      case None => None
      case Some(k) => Some(k + 1)
  }

  /** The exact-match loop of `jump_to_image`. */
  method FindFrame(files: seq<string>, n: int) returns (r: Option<nat>)
    ensures r == FirstWith(Frames(files), n)
  {
    ghost var nums := Frames(files);
    var i := 0;
    while i < |files|
      invariant 0 <= i <= |files|
      invariant forall k :: 0 <= k < i ==> nums[k] != Some(n)
    {
      var number := FrameAt(files, i);
      if number == Some(n) {
        FirstWithAt(nums, n, i);
        return Some(i);
      }
      i := i + 1;
    }
    FirstWithNone(nums, n);
    return None;
  }

  /** The first position holding `n` is the one every earlier position misses. */
  lemma FirstWithAt(nums: seq<Option<int>>, n: int, i: nat)
    requires i < |nums| && nums[i] == Some(n)
    requires forall k :: 0 <= k < i ==> nums[k] != Some(n)
    ensures FirstWith(nums, n) == Some(i)
  {
    var r := FirstWith(nums, n);
    assert r.Some?;
    assert r.value <= i;
  }

  lemma FirstWithNone(nums: seq<Option<int>>, n: int)
    requires forall k :: 0 <= k < |nums| ==> nums[k] != Some(n)
    ensures FirstWith(nums, n) == None
  {
  }

  /** Where `jump_to_image` goes when asked for frame `n`. */
  datatype Jump =
    | Exact(index: nat)                // a file holds frame n
    | Later(index: nat, frame: int)    // "Frame n not found. Moving to frame ..."
    | Earliest(index: nat, frame: int) // "Frame n and later frames not found. Moving to frame ..."
    | NoNumeric                        // "No files with numeric names found."

  /**
   * The first file holding frame `n`; else the first file in the order of
   * the sort key (frame 0 counted as infinite) whose number is above `n`;
   * else the first numbered file in that order.
   */
  function JumpTarget(files: seq<string>, n: int): Jump {
    var nums := Frames(files);
    match FirstWith(nums, n)
    case Some(i) => Exact(i)
    case None =>
      match Pick(nums, ZeroLast, Some(n))
      case Some((p, v)) => Later(IndexOf(files, files[p]), v)
      case None =>
        match Pick(nums, ZeroLast, None)
        case Some((p, v)) => Earliest(IndexOf(files, files[p]), v)
        case None => NoNumeric
  }

  /** The three scans of `jump_to_image`, in their order. */
  method JumpSearch(files: seq<string>, n: int) returns (r: Jump)
    ensures r == JumpTarget(files, n)
  {
    var exact := FindFrame(files, n);
    if exact.Some? {
      return Exact(exact.value);
    }
    var later := PickScan(files, ZeroLast, Some(n));
    if later.Some? {
      return Later(IndexOf(files, files[later.value.0]), later.value.1);
    }
    var first := PickScan(files, ZeroLast, None);
    if first.Some? {
      return Earliest(IndexOf(files, files[first.value.0]), first.value.1);
    }
    return NoNumeric;
  }

  /**
   * What each outcome of the jump means: an exact match is the first file
   * holding `n`; otherwise the target is the file that the key order puts
   * first among those above `n`, or among all numbered files.
   */
  lemma JumpTargetSpec(files: seq<string>, n: int)
    ensures var nums := Frames(files);
      match JumpTarget(files, n)
      case Exact(i) =>
        i < |files| && nums[i] == Some(n) && forall k :: 0 <= k < i ==> nums[k] != Some(n)
      case Later(i, v) =>
        && (forall k :: 0 <= k < |nums| ==> nums[k] != Some(n))
        && i < |files| && nums[i] == Some(v) && v > n
        && forall k :: Numbered(nums, k) && nums[k].value > n ==> Precedes(ZeroLast, v, i, nums[k].value, k)
      case Earliest(i, v) =>
        && (forall k :: Numbered(nums, k) ==> nums[k].value <= n)
        && i < |files| && nums[i] == Some(v)
        && forall k :: Numbered(nums, k) ==> Precedes(ZeroLast, v, i, nums[k].value, k)
      case NoNumeric =>
        forall k :: 0 <= k < |nums| ==> nums[k].None?
  {
    match JumpTarget(files, n) {
      case Exact(i) =>
      case Later(i, v) => JumpLater(files, n);
      case Earliest(i, v) => JumpEarliest(files, n);
      case NoNumeric => JumpNoNumeric(files, n);
    }
  }

  lemma JumpLater(files: seq<string>, n: int)
    requires JumpTarget(files, n).Later?
    ensures var nums, i, v := Frames(files), JumpTarget(files, n).index, JumpTarget(files, n).frame;
      && (forall k :: 0 <= k < |nums| ==> nums[k] != Some(n))
      && i < |files| && nums[i] == Some(v) && v > n
      && forall k :: Numbered(nums, k) && nums[k].value > n ==> Precedes(ZeroLast, v, i, nums[k].value, k)
  {
    var nums := Frames(files);
    JumpFirstInOrder(files, Some(n));
    forall k | Numbered(nums, k) && nums[k].value > n ensures Candidate(nums, ZeroLast, Some(n), k) { }
  }

  lemma JumpEarliest(files: seq<string>, n: int)
    requires JumpTarget(files, n).Earliest?
    ensures var nums, i, v := Frames(files), JumpTarget(files, n).index, JumpTarget(files, n).frame;
      && (forall k :: Numbered(nums, k) ==> nums[k].value <= n)
      && i < |files| && nums[i] == Some(v)
      && forall k :: Numbered(nums, k) ==> Precedes(ZeroLast, v, i, nums[k].value, k)
  {
    var nums := Frames(files);
    PickSpec(nums, ZeroLast, Some(n));
    forall k | Numbered(nums, k) ensures nums[k].value <= n {
      assert !Candidate(nums, ZeroLast, Some(n), k);
    }
    JumpFirstInOrder(files, None);
    forall k | Numbered(nums, k) ensures Candidate(nums, ZeroLast, None, k) { }
  }

  lemma JumpNoNumeric(files: seq<string>, n: int)
    requires JumpTarget(files, n).NoNumeric?
    ensures var nums := Frames(files); forall k :: 0 <= k < |nums| ==> nums[k].None?
  {
    var nums := Frames(files);
    PickSpec(nums, ZeroLast, None);
    forall k | 0 <= k < |nums| ensures nums[k].None? {
      if nums[k].Some? { assert Candidate(nums, ZeroLast, None, k); }
    }
  }

  /** The file a key-order scan picks, found again by `list.index`, comes first among the candidates. */
  lemma JumpFirstInOrder(files: seq<string>, bound: Option<int>)
    requires Pick(Frames(files), ZeroLast, bound).Some?
    ensures var nums := Frames(files);
      var (p, v) := Pick(nums, ZeroLast, bound).value;
      var i := IndexOf(files, files[p]);
      && i == p && i < |files| && nums[i] == Some(v) && Eligible(ZeroLast, bound, v)
      && forall k :: Candidate(nums, ZeroLast, bound, k) ==> Precedes(ZeroLast, v, i, nums[k].value, k)
  {
    PickSpec(Frames(files), ZeroLast, bound);
    IndexOfFirstInOrder(files, ZeroLast, bound);
  }

  /**
   * The sort key `get_frame_number(x) or float('inf')` treats frame 0 like
   * a file without a number: the jump lands on frame 0 only when every
   * candidate frame is 0.
   */
  lemma JumpReachesZeroLast(files: seq<string>, n: int)
    ensures var nums := Frames(files);
      match JumpTarget(files, n)
      case Later(_, v) => v == 0 ==> forall k :: Numbered(nums, k) && nums[k].value > n ==> nums[k] == Some(0)
      case Earliest(_, v) => v == 0 ==> forall k :: Numbered(nums, k) ==> nums[k] == Some(0)
      case _ => true
  {
    JumpTargetSpec(files, n);
  }

  // ---------------------------------------------------------------------
  // Pairing an image with its markup file

  /** Position of the first path whose key is `target`. */
  function FirstKeyed(key: string -> string, target: string, paths: seq<string>): (r: Option<nat>)
    ensures r.Some? ==> r.value < |paths|
  {
    if paths == [] then None
    else if key(paths[0]) == target then Some(0)
    else
      match FirstKeyed(key, target, paths[1..])
      case None => None
      case Some(k) => Some(k + 1)
  }

  /** The position found has the key and no earlier one does; none is found only when no path has the key. */
  lemma {:induction false} FirstKeyedSpec(key: string -> string, target: string, paths: seq<string>)
    ensures var r := FirstKeyed(key, target, paths);
      && (r.Some? ==> key(paths[r.value]) == target && forall k :: 0 <= k < r.value ==> key(paths[k]) != target)
      && (r.None? ==> forall k :: 0 <= k < |paths| ==> key(paths[k]) != target)
  {
    if paths != [] && key(paths[0]) != target {
      FirstKeyedSpec(key, target, paths[1..]);
      assert forall k :: 1 <= k < |paths| ==> paths[k] == paths[1..][k - 1];
    }
  }

  /** The first path with the key is the one every earlier path misses. */
  lemma FirstKeyedAt(key: string -> string, target: string, paths: seq<string>, i: nat)
    requires i < |paths| && key(paths[i]) == target
    requires forall k :: 0 <= k < i ==> key(paths[k]) != target
    ensures FirstKeyed(key, target, paths) == Some(i)
  {
    FirstKeyedSpec(key, target, paths);
    var r := FirstKeyed(key, target, paths);
    assert r.Some?;
    assert r.value <= i;
  }

  lemma FirstKeyedNone(key: string -> string, target: string, paths: seq<string>)
    requires forall k :: 0 <= k < |paths| ==> key(paths[k]) != target
    ensures FirstKeyed(key, target, paths) == None
  {
    FirstKeyedSpec(key, target, paths);
  }

  /** `Path(p).stem`, as the key the markup files are matched by. */
  function StemKey(): string -> string {
    p => Stem(p)
  }

  /** Position of the first path whose stem is `stem`. */
  function FirstSameStem(stem: string, txtFiles: seq<string>): (r: Option<nat>)
    ensures r.Some? ==> r.value < |txtFiles|
  {
    FirstKeyed(StemKey(), stem, txtFiles)
  }

  /** The position found holds the stem and no earlier one does; none is found only when no path has the stem. */
  lemma FirstSameStemSpec(stem: string, txtFiles: seq<string>)
    ensures var r := FirstSameStem(stem, txtFiles);
      && (r.Some? ==> Stem(txtFiles[r.value]) == stem && forall k :: 0 <= k < r.value ==> Stem(txtFiles[k]) != stem)
      && (r.None? ==> forall k :: 0 <= k < |txtFiles| ==> Stem(txtFiles[k]) != stem)
  {
    FirstKeyedSpec(StemKey(), stem, txtFiles);
    forall k | 0 <= k < |txtFiles| ensures StemKey()(txtFiles[k]) == Stem(txtFiles[k]) { }
  }

  /** The path `<basePath>/<n>.txt` tried when no markup file has the image's stem. */
  function NumberedMarkup(basePath: string, n: int): string {
    Join(basePath, IntToString(n) + ".txt")
  }

  /**
   * The markup file shown with an image: the first `.txt` file with the
   * same stem, else `<basePath>/<n>.txt` for the image's frame number `n`
   * when that path exists, else none.
   */
  function PairedMarkup(imagePath: string, txtFiles: seq<string>, basePath: string, existing: set<string>): Option<string> {
    match FirstSameStem(Stem(imagePath), txtFiles)
    case Some(k) => Some(txtFiles[k])
    case None =>
      match FrameNumber(imagePath)
      case None => None
      case Some(n) => if NumberedMarkup(basePath, n) in existing then Some(NumberedMarkup(basePath, n)) else None
  }

  /** The pairing loop of `show_current_image`. */
  method FindMarkupPath(imagePath: string, txtFiles: seq<string>, basePath: string, existing: set<string>) returns (r: Option<string>)
    ensures r == PairedMarkup(imagePath, txtFiles, basePath, existing)
  {
    var stem := Stem(imagePath);
    var k := StemScan(stem, txtFiles);
    if k.Some? {
      return Some(txtFiles[k.value]);
    }
    var number := ParseInt(stem);
    if number.None? {
      return None;
    }
    var path := NumberedMarkup(basePath, number.value);
    if path in existing {
      return Some(path);
    }
    return None;
  }

  /** The loop over the markup files looking for the image's stem. */
  method StemScan(stem: string, txtFiles: seq<string>) returns (r: Option<nat>)
    ensures r == FirstSameStem(stem, txtFiles)
  {
    var i := 0;
    while i < |txtFiles|
      invariant 0 <= i <= |txtFiles|
      invariant forall k :: 0 <= k < i ==> StemKey()(txtFiles[k]) != stem
    {
      assert StemKey()(txtFiles[i]) == Stem(txtFiles[i]);
      if Stem(txtFiles[i]) == stem {
        FirstKeyedAt(StemKey(), stem, txtFiles, i);
        return Some(i);
      }
      i := i + 1;
    }
    FirstKeyedNone(StemKey(), stem, txtFiles);
    return None;
  }

  /**
   * The paired markup file has the image's frame number (or, like the
   * image, none), and with a numeric stem like "007" the fallback file is
   * named by the normalised number, "7.txt".
   */
  lemma PairedMarkupFrame(imagePath: string, txtFiles: seq<string>, basePath: string, existing: set<string>)
    ensures var r := PairedMarkup(imagePath, txtFiles, basePath, existing);
      r.Some? ==> FrameNumber(r.value) == FrameNumber(imagePath)
  {
    FirstSameStemSpec(Stem(imagePath), txtFiles);
    match FirstSameStem(Stem(imagePath), txtFiles) {
      case Some(k) =>
        assert Stem(txtFiles[k]) == Stem(imagePath);
      case None =>
        match FrameNumber(imagePath) {
          case None =>
          case Some(n) =>
            assert IntToString(n) + ".txt" == IntToString(n) + "." + "txt";
            assert IsExtensionTail("txt");
            FrameNumberOfName(basePath, n, "txt");
        }
    }
  }

  /** Which markup file is chosen, case by case. */
  lemma PairedMarkupCases(imagePath: string, txtFiles: seq<string>, basePath: string, existing: set<string>)
    ensures var r := PairedMarkup(imagePath, txtFiles, basePath, existing);
      && ((exists k :: 0 <= k < |txtFiles| && Stem(txtFiles[k]) == Stem(imagePath)) ==>
            exists k :: 0 <= k < |txtFiles| && r == Some(txtFiles[k]) && Stem(txtFiles[k]) == Stem(imagePath)
              && forall j :: 0 <= j < k ==> Stem(txtFiles[j]) != Stem(imagePath))
      && ((forall k :: 0 <= k < |txtFiles| ==> Stem(txtFiles[k]) != Stem(imagePath)) ==>
            (r.Some? <==> FrameNumber(imagePath).Some? && NumberedMarkup(basePath, FrameNumber(imagePath).value) in existing)
            && (r.Some? ==> r.value == NumberedMarkup(basePath, FrameNumber(imagePath).value)))
  {
    FirstSameStemSpec(Stem(imagePath), txtFiles);
    var f := FirstSameStem(Stem(imagePath), txtFiles);
    if f.Some? {
      assert 0 <= f.value < |txtFiles| && PairedMarkup(imagePath, txtFiles, basePath, existing) == Some(txtFiles[f.value]);
    }
  }
}
