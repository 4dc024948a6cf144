/**
 * The polygon to YOLO converter: turns each polygon annotation line into
 * the bounding box of its vertices, reads the `obj.data` and `obj.names`
 * files of a Darknet-style dataset, splits the image list 80/20 into
 * training and validation images, and describes the `data.yaml` manifest.
 * Files are given as their text; writing, copying and YAML output are not
 * part of this model.
 */
module Converter {
  import opened Wrappers
  import opened Text
  import opened Paths
  import opened Sequences

  // ----- convert_annotation -----

  /** One output line: the class id as written, the box centre and its size. */
  datatype Box = Box(classId: string, xCenter: real, yCenter: real, width: real, height: real)

  /**
   * `list(map(float, tokens))`; `parseFloat` is Python's `float`, with
   * `None` for the ValueError it raises, and the error names the first
   * token it refuses.
   */
  function Coords(parseFloat: string -> Option<real>, toks: seq<string>): (r: Result<seq<real>, string>)
    ensures r.Ok? ==> |r.value| == |toks| && forall i :: 0 <= i < |toks| ==> parseFloat(toks[i]) == Some(r.value[i])
    ensures r.Err? ==> exists i :: 0 <= i < |toks| && toks[i] == r.error && parseFloat(toks[i]).None?
  {
    if toks == [] then Ok([])
    else match parseFloat(toks[0])
      case None => Err(toks[0])
      case Some(x) =>
        match Coords(parseFloat, toks[1..])
        case Err(t) => Err(t)
        case Ok(xs) => Ok([x] + xs)
  }

  /** `coords[::2]` */
  function Evens(s: seq<real>): (r: seq<real>)
    ensures |r| == (|s| + 1) / 2 && forall i :: 0 <= i < |r| ==> r[i] == s[2 * i]
  {
    seq((|s| + 1) / 2, i requires 0 <= i < (|s| + 1) / 2 => s[2 * i])
  }

  /** `coords[1::2]` */
  function Odds(s: seq<real>): (r: seq<real>)
    ensures |r| == |s| / 2 && forall i :: 0 <= i < |r| ==> r[i] == s[2 * i + 1]
  {
    seq(|s| / 2, i requires 0 <= i < |s| / 2 => s[2 * i + 1])
  }

  /** `min`: an element that no element is below. */
  function Min(s: seq<real>): (m: real)
    requires s != []
    ensures m in s && forall x :: x in s ==> m <= x
  {
    if |s| == 1 then s[0]
    else
      var rest := Min(s[1..]);
      assert forall x :: x in s ==> x == s[0] || x in s[1..];
      if s[0] <= rest then s[0] else rest
  }

  /** `max`: an element that no element is above. */
  function Max(s: seq<real>): (m: real)
    requires s != []
    ensures m in s && forall x :: x in s ==> x <= m
  {
    if |s| == 1 then s[0]
    else
      var rest := Max(s[1..]);
      assert forall x :: x in s ==> x == s[0] || x in s[1..];
      if rest <= s[0] then s[0] else rest
  }

  /** The centre and size of the smallest box holding the points `coords` lists as x, y, x, y, ... */
  function BoxOf(classId: string, coords: seq<real>): Box
    requires |coords| >= 2
  {
    var xs, ys := Evens(coords), Odds(coords);
    var xMin, xMax, yMin, yMax := Min(xs), Max(xs), Min(ys), Max(ys);
    Box(classId, (xMin + xMax) / 2.0, (yMin + yMax) / 2.0, xMax - xMin, yMax - yMin)
  }

  /**
   * The box holds every vertex, has a vertex on each of its four sides,
   * and so has no negative size and its centre between the extremes.
   */
  lemma BoxOfSpec(classId: string, coords: seq<real>)
    requires |coords| >= 2
    ensures var b, xs, ys := BoxOf(classId, coords), Evens(coords), Odds(coords);
      && b.classId == classId && b.width >= 0.0 && b.height >= 0.0
      && (forall x :: x in xs ==> b.xCenter - b.width / 2.0 <= x <= b.xCenter + b.width / 2.0)
      && (forall y :: y in ys ==> b.yCenter - b.height / 2.0 <= y <= b.yCenter + b.height / 2.0)
      && b.xCenter - b.width / 2.0 in xs && b.xCenter + b.width / 2.0 in xs
      && b.yCenter - b.height / 2.0 in ys && b.yCenter + b.height / 2.0 in ys
  {
    var xs, ys := Evens(coords), Odds(coords);
    assert xs != [] && ys != [];
    var xMin, xMax, yMin, yMax := Min(xs), Max(xs), Min(ys), Max(ys);
    assert xMin <= xMax && yMin <= yMax;
  }

  /**
   * One line of `convert_annotation`: skipped (`Ok(None)`) when it has fewer
   * than three tokens or an even number of them, otherwise the box of its
   * coordinates, or the token `float` refuses.
   */
  function ConvertLine(parseFloat: string -> Option<real>, line: string): Result<Option<Box>, string> {
    var parts := Split(Strip(line));
    if |parts| < 3 || |parts| % 2 == 0 then Ok(None)
    else match Coords(parseFloat, parts[1..])
      case Err(t) => Err(t)
      case Ok(coords) => Ok(Some(BoxOf(parts[0], coords)))
  }

  /** A line is skipped exactly when it has fewer than three tokens or an even count. */
  lemma ConvertLineSkipped(parseFloat: string -> Option<real>, line: string)
    ensures var parts := Split(Strip(line));
      ConvertLine(parseFloat, line) == Ok(None) <==> |parts| < 3 || |parts| % 2 == 0
  {
  }

  /**
   * A box keeps the line's first token verbatim as its class and holds
   * the line's vertices: x at the odd token positions, y at the even ones
   * after the class.
   */
  lemma ConvertLineBox(parseFloat: string -> Option<real>, line: string, b: Box)
    requires ConvertLine(parseFloat, line) == Ok(Some(b))
    ensures var parts := Split(Strip(line));
      && b.classId == parts[0] && b.width >= 0.0 && b.height >= 0.0
      && forall j :: 0 <= j < (|parts| - 1) / 2 ==>
        && parseFloat(parts[2 * j + 1]).Some? && parseFloat(parts[2 * j + 2]).Some?
        && b.xCenter - b.width / 2.0 <= parseFloat(parts[2 * j + 1]).value <= b.xCenter + b.width / 2.0
        && b.yCenter - b.height / 2.0 <= parseFloat(parts[2 * j + 2]).value <= b.yCenter + b.height / 2.0
  {
    var parts := Split(Strip(line));
    var coords := Coords(parseFloat, parts[1..]).value;
    VerticesInBox(parseFloat, parts, coords);
  }

  lemma VerticesInBox(parseFloat: string -> Option<real>, parts: seq<string>, coords: seq<real>)
    requires |parts| >= 3 && Coords(parseFloat, parts[1..]) == Ok(coords)
    ensures var b := BoxOf(parts[0], coords);
      && b.classId == parts[0] && b.width >= 0.0 && b.height >= 0.0
      && forall j :: 0 <= j < (|parts| - 1) / 2 ==>
        && parseFloat(parts[2 * j + 1]).Some? && parseFloat(parts[2 * j + 2]).Some?
        && b.xCenter - b.width / 2.0 <= parseFloat(parts[2 * j + 1]).value <= b.xCenter + b.width / 2.0
        && b.yCenter - b.height / 2.0 <= parseFloat(parts[2 * j + 2]).value <= b.yCenter + b.height / 2.0
  {
    BoxOfSpec(parts[0], coords);
    forall j | 0 <= j < (|parts| - 1) / 2
      ensures var b := BoxOf(parts[0], coords);
        && parseFloat(parts[2 * j + 1]).Some? && parseFloat(parts[2 * j + 2]).Some?
        && b.xCenter - b.width / 2.0 <= parseFloat(parts[2 * j + 1]).value <= b.xCenter + b.width / 2.0
        && b.yCenter - b.height / 2.0 <= parseFloat(parts[2 * j + 2]).value <= b.yCenter + b.height / 2.0
    {
      VertexInBox(parseFloat, parts, coords, j);
    }
  }

  /** Vertex `j`, read from tokens `2j+1` and `2j+2` of the line, lies in the box. */
  lemma VertexInBox(parseFloat: string -> Option<real>, parts: seq<string>, coords: seq<real>, j: nat)
    requires |parts| >= 3 && Coords(parseFloat, parts[1..]) == Ok(coords)
    requires j < (|parts| - 1) / 2
    ensures var b := BoxOf(parts[0], coords);
      && parseFloat(parts[2 * j + 1]).Some? && parseFloat(parts[2 * j + 2]).Some?
      && b.xCenter - b.width / 2.0 <= parseFloat(parts[2 * j + 1]).value <= b.xCenter + b.width / 2.0
      && b.yCenter - b.height / 2.0 <= parseFloat(parts[2 * j + 2]).value <= b.yCenter + b.height / 2.0
  {
    var toks := parts[1..];
    assert toks[2 * j] == parts[2 * j + 1];
    assert toks[2 * j + 1] == parts[2 * j + 2];
    var xs, ys := Evens(coords), Odds(coords);
    assert xs[j] in xs && ys[j] in ys;
    BoxOfSpec(parts[0], coords);
  }

  /** What `convert_annotation` has written, and the token that stopped it, if any. */
  datatype Converted = Converted(written: seq<Box>, error: Option<string>)

  /** The converter of one line, as a value the line loop is stated over. */
  function LineConverter(parseFloat: string -> Option<real>): string -> Result<Option<Box>, string> {
    line => ConvertLine(parseFloat, line)
  }

  /**
   * `convert_annotation` over the lines of a file, `convert` converting one
   * line: stops at the first refused token.
   */
  function ConvertLines(convert: string -> Result<Option<Box>, string>, lines: seq<string>): Converted
    decreases |lines|
  {
    if lines == [] then Converted([], None)
    else
      var prev := ConvertLines(convert, lines[..|lines| - 1]);
      if prev.error.Some? then prev
      else match convert(lines[|lines| - 1])
        case Err(t) => Converted(prev.written, Some(t))
        case Ok(None) => prev
        case Ok(Some(b)) => Converted(prev.written + [b], None)
  }

  /** The boxes of the lines that are not skipped, in line order, when no line fails. */
  function Boxes(convert: string -> Result<Option<Box>, string>, lines: seq<string>): seq<Box> {
    if lines == [] then []
    else Written(convert(lines[0])) + Boxes(convert, lines[1..])
  }

  /** The box one converted line contributes: none when it is skipped or fails. */
  function Written(r: Result<Option<Box>, string>): seq<Box> {
    match r
    case Ok(Some(b)) => [b]
    case _ => []
  }

  lemma {:induction false} BoxesSnoc(convert: string -> Result<Option<Box>, string>, lines: seq<string>, line: string)
    ensures Boxes(convert, lines + [line]) == Boxes(convert, lines) + Written(convert(line))
    decreases |lines|
  {
    if lines == [] {
      assert lines + [line] == [line];
    } else {
      assert (lines + [line])[0] == lines[0];
      assert (lines + [line])[1..] == lines[1..] + [line];
      BoxesSnoc(convert, lines[1..], line);
      AppendAssoc(Written(convert(lines[0])), Boxes(convert, lines[1..]), Written(convert(line)));
    }
  }

  /** A line that fails before position `i`: the conversion stops there. */
  predicate FailsBefore(convert: string -> Result<Option<Box>, string>, lines: seq<string>, i: nat) {
    exists j :: 0 <= j < i && j < |lines| && convert(lines[j]).Err?
  }

  /** Without a failing line, every line that is not skipped is written, in line order. */
  lemma {:induction false} ConvertLinesClean(convert: string -> Result<Option<Box>, string>, lines: seq<string>)
    requires !FailsBefore(convert, lines, |lines|)
    ensures ConvertLines(convert, lines) == Converted(Boxes(convert, lines), None)
    decreases |lines|
  {
    if lines != [] {
      var init, last := lines[..|lines| - 1], lines[|lines| - 1];
      assert !FailsBefore(convert, init, |init|) by {
        forall j | 0 <= j < |init| ensures init[j] == lines[j] { }
      }
      ConvertLinesClean(convert, init);
      BoxesSnoc(convert, init, last);
      assert init + [last] == lines;
      assert !convert(last).Err?;
    }
  }

  /**
   * At the first failing line `i` the conversion stops with that line's
   * refused token, having written the boxes of the lines before it.
   */
  lemma ConvertLinesFails(convert: string -> Result<Option<Box>, string>, lines: seq<string>, i: nat)
    requires i < |lines| && !FailsBefore(convert, lines, i) && convert(lines[i]).Err?
    ensures ConvertLines(convert, lines)
      == Converted(Boxes(convert, lines[..i]), Some(convert(lines[i]).error))
  {
    var prefix := lines[..i];
    assert !FailsBefore(convert, prefix, |prefix|) by {
      forall j | 0 <= j < |prefix| ensures prefix[j] == lines[j] { }
    }
    ConvertLinesClean(convert, prefix);
    assert lines[..i + 1][..i] == prefix;
    assert lines[..i + 1][i] == lines[i];
    FailureStops(convert, lines, i + 1);
  }

  /** When some line fails, there is a first one. */
  lemma {:induction false} FirstFailure(convert: string -> Result<Option<Box>, string>, lines: seq<string>, n: nat)
    requires FailsBefore(convert, lines, n)
    ensures exists i :: 0 <= i < n && i < |lines| && !FailsBefore(convert, lines, i) && convert(lines[i]).Err?
  {
    if FailsBefore(convert, lines, n - 1) {
      FirstFailure(convert, lines, n - 1);
    } else {
      assert convert(lines[n - 1]).Err?;
    }
  }

  /** The conversion reports an error exactly when some line fails. */
  lemma ConvertFailsIff(convert: string -> Result<Option<Box>, string>, lines: seq<string>)
    ensures ConvertLines(convert, lines).error.Some? ==> FailsBefore(convert, lines, |lines|)
    ensures FailsBefore(convert, lines, |lines|) ==> ConvertLines(convert, lines).error.Some?
  {
    if FailsBefore(convert, lines, |lines|) {
      FirstFailure(convert, lines, |lines|);
      var i :| 0 <= i < |lines| && !FailsBefore(convert, lines, i) && convert(lines[i]).Err?;
      ConvertLinesFails(convert, lines, i);
    } else {
      ConvertLinesClean(convert, lines);
    }
  }

  /** Once a prefix has failed, later lines change nothing. */
  lemma {:induction false} FailureStops(convert: string -> Result<Option<Box>, string>, lines: seq<string>, k: nat)
    requires k <= |lines| && ConvertLines(convert, lines[..k]).error.Some?
    ensures ConvertLines(convert, lines) == ConvertLines(convert, lines[..k])
    decreases |lines| - k
  {
    if k < |lines| {
      assert lines[..k + 1][..k] == lines[..k];
      FailureStops(convert, lines, k + 1);
    } else {
      assert lines[..k] == lines;
    }
  }

  lemma ConvertLinesStep(convert: string -> Result<Option<Box>, string>, lines: seq<string>, n: nat)
    requires n < |lines| && ConvertLines(convert, lines[..n]).error.None?
    ensures var prev := ConvertLines(convert, lines[..n]);
      ConvertLines(convert, lines[..n + 1]) == match convert(lines[n])
        case Err(t) => Converted(prev.written, Some(t))
        case Ok(None) => prev
        case Ok(Some(b)) => Converted(prev.written + [b], None)
  {
    assert lines[..n + 1][..n] == lines[..n];
  }

  /**
   * The body of the line loop of `convert_annotation`, as executed: it computes
   * `ConvertLine`, and stands apart so that the loop's proof stays small.
   */
  method ConvertOne(parseFloat: string -> Option<real>, line: string) returns (r: Result<Option<Box>, string>)
    ensures r == LineConverter(parseFloat)(line)
  {
    var parts := Split(Strip(line));
    if |parts| < 3 || |parts| % 2 == 0 {
      return Ok(None);
    }
    var coords := Coords(parseFloat, parts[1..]);
    if coords.Err? {
      return Err(coords.error);
    }
    return Ok(Some(BoxOf(parts[0], coords.value)));
  }

  /** `convert_annotation(input_path, output_path)` on the text of the input file. */
  method ConvertAnnotation(parseFloat: string -> Option<real>, input: string) returns (out: Converted)
    ensures out == ConvertLines(LineConverter(parseFloat), Lines(input))
  {
    var lines := Lines(input);
    out := Converted([], None);
    var i := 0;
    while i < |lines|
      invariant 0 <= i <= |lines|
      invariant out == ConvertLines(LineConverter(parseFloat), lines[..i]) && out.error.None?
    {
      ConvertLinesStep(LineConverter(parseFloat), lines, i);
      var r := ConvertOne(parseFloat, lines[i]);
      match r {
        case Err(t) =>
          out := Converted(out.written, Some(t));
          FailureStops(LineConverter(parseFloat), lines, i + 1);
          return;
        case Ok(None) =>
        case Ok(Some(b)) =>
          out := Converted(out.written + [b], None);
      }
      i := i + 1;
    }
    assert lines[..i] == lines;
  }

  // ----- parse_obj_data -----

  /** Keys whose values lose a leading "data/". */
  const PrefixedKeys: seq<string> := ["train", "names", "backup"]

  /** `s[len("data/"):] if s.startswith("data/") else s` */
  function WithoutDataPrefix(s: string): string {
    if StartsWith(s, "data/") then s[5..] else s
  }

  /**
   * The entry one line of `obj.data` contributes: none without '=';
   * otherwise the stripped text before the first '=' and the stripped text
   * after it, without "data/" for the keys of `PrefixedKeys`.
   */
  function ObjEntry(line: string): Option<(string, string)> {
    if FindFirst(line, '=').None? then None
    else StrippedEntry(Strip(line))
  }

  /** The entry of the stripped line `s`: split at its first '='. */
  function StrippedEntry(s: string): Option<(string, string)> {
    match FindFirst(s, '=')
    case None => None
    case Some(i) =>
      Some(Entry(Strip(s[..i]), Strip(s[i + 1..])))
  }

  /** The entry of a stripped key and value: "data/" removed for the keys of `PrefixedKeys`. */
  function Entry(key: string, value: string): (string, string) {
    (key, if key in PrefixedKeys then WithoutDataPrefix(value) else value)
  }

  /** The entry of one line, as a value the line loop is stated over. */
  function ObjEntries(): string -> Option<(string, string)> {
    line => ObjEntry(line)
  }

  /**
   * `parse_obj_data`: the dictionary after every line, `entry` giving the
   * entry of one line, later lines overwriting.
   */
  function ObjData(entry: string -> Option<(string, string)>, lines: seq<string>): map<string, string>
    decreases |lines|
  {
    if lines == [] then map[]
    else
      var data := ObjData(entry, lines[..|lines| - 1]);
      match entry(lines[|lines| - 1])
      case None => data
      case Some(kv) => data[kv.0 := kv.1]
  }

  /**
   * The body of the line loop of `parse_obj_data`, as executed: it computes
   * `ObjEntry`, and stands apart so that the loop's proof stays small.
   */
  method ObjLine(line: string) returns (e: Option<(string, string)>)
    ensures e == ObjEntries()(line)
  {
    e := None;
    if FindFirst(line, '=').Some? {
      var s := Strip(line);
      var eq := FindFirst(s, '=');
      if eq.Some? {
        var key := Strip(s[..eq.value]);
        var value := Strip(s[eq.value + 1..]);
        if key in PrefixedKeys && StartsWith(value, "data/") {
          value := value[5..];
        }
        e := Some((key, value));
      }
    }
  }

  lemma ObjDataStep(entry: string -> Option<(string, string)>, lines: seq<string>, n: nat)
    requires n < |lines|
    ensures var data := ObjData(entry, lines[..n]);
      ObjData(entry, lines[..n + 1]) == match entry(lines[n])
        case None => data
        case Some(kv) => data[kv.0 := kv.1]
  {
    assert lines[..n + 1][..n] == lines[..n];
  }

  /** `parse_obj_data(obj_data_path)` on the text of the file. */
  method ParseObjData(text: string) returns (data: map<string, string>)
    ensures data == ObjData(ObjEntries(), Lines(text))
  {
    var lines := Lines(text);
    data := map[];
    var i := 0;
    while i < |lines|
      invariant 0 <= i <= |lines|
      invariant data == ObjData(ObjEntries(), lines[..i])
    {
      ObjDataStep(ObjEntries(), lines, i);
      var e := ObjLine(lines[i]);
      if e.Some? {
        data := data[e.value.0 := e.value.1];
      }
      i := i + 1;
    }
    assert lines[..i] == lines;
  }

  /** A key is in the dictionary exactly when some line has an entry for it. */
  lemma {:induction false} ObjDataKeys(entry: string -> Option<(string, string)>, lines: seq<string>, key: string)
    ensures key in ObjData(entry, lines) ==> exists i :: 0 <= i < |lines| && entry(lines[i]).Some? && entry(lines[i]).value.0 == key
    ensures (exists i :: 0 <= i < |lines| && entry(lines[i]).Some? && entry(lines[i]).value.0 == key) ==> key in ObjData(entry, lines)
    decreases |lines|
  {
    if lines != [] {
      var init := lines[..|lines| - 1];
      ObjDataKeys(entry, init, key);
      assert forall i :: 0 <= i < |init| ==> init[i] == lines[i];
      if i :| 0 <= i < |lines| && entry(lines[i]).Some? && entry(lines[i]).value.0 == key {
        if i < |init| {
          assert entry(init[i]).Some? && entry(init[i]).value.0 == key;
        }
      }
    }
  }

  /** The value of a key is the one given by the last line that has an entry for it. */
  lemma {:induction false} ObjDataLastWins(entry: string -> Option<(string, string)>, lines: seq<string>, i: nat, key: string, value: string)
    requires i < |lines| && entry(lines[i]) == Some((key, value))
    requires forall j :: i < j < |lines| ==> entry(lines[j]).None? || entry(lines[j]).value.0 != key
    ensures key in ObjData(entry, lines) && ObjData(entry, lines)[key] == value
    decreases |lines|
  {
    if i < |lines| - 1 {
      var init := lines[..|lines| - 1];
      assert init[i] == lines[i];
      assert forall j :: i < j < |init| ==> init[j] == lines[j];
      ObjDataLastWins(entry, init, i, key, value);
    }
  }

  /**
   * A line `key = value`, with any spaces around the '=' and around the
   * line, gives the entry (key, value), "data/" removed for the prefixed keys.
   */
  lemma ObjEntryOfPair(pre: string, key: string, gap1: string, gap2: string, value: string, post: string)
    requires key != [] && Stripped(key) && forall k :: 0 <= k < |key| ==> key[k] != '='
    requires value != [] && Stripped(value)
    requires AllSpace(pre) && AllSpace(gap1) && AllSpace(gap2) && AllSpace(post)
    ensures ObjEntry(pre + key + gap1 + "=" + gap2 + value + post)
      == Some((key, if key in PrefixedKeys then WithoutDataPrefix(value) else value))
  {
    var left, right := key + gap1, gap2 + value;
    var t := left + "=" + right;
    var line := pre + key + gap1 + "=" + gap2 + value + post;
    PairStripped(pre, key, gap1, gap2, value, post);
    PairSplitsAtEquals(key, gap1, right);
    StripOfPadded([], key, gap1);
    StripOfPadded(gap2, value, []);
    EntryOfParts(left, right, key, value);
  }

  /** `StripPadded` with one side empty. */
  lemma StripOfPadded(pre: string, t: string, post: string)
    requires AllSpace(pre) && AllSpace(post) && Stripped(t)
    ensures pre == [] ==> Strip(t + post) == t
    ensures post == [] ==> Strip(pre + t) == t
  {
    StripPadded(pre, t, post);
    if pre == [] { assert pre + t + post == t + post; }
    if post == [] { assert pre + t + post == pre + t; }
  }

  /** Text `left=right`, `left` free of '=', has the entry of the stripped halves. */
  lemma EntryOfParts(left: string, right: string, key: string, value: string)
    requires FindFirst(left + "=" + right, '=') == Some(|left|)
    requires Strip(left) == key && Strip(right) == value
    ensures StrippedEntry(left + "=" + right) == Some(Entry(key, value))
  {
    var t := left + "=" + right;
    assert t[..|left|] == left;
    assert t[|left| + 1..] == right;
    assert Strip(t[..|left|]) == key && Strip(t[|left| + 1..]) == value;
  }

  /** The line is the padded pair, and stripping removes exactly the padding. */
  lemma PairStripped(pre: string, key: string, gap1: string, gap2: string, value: string, post: string)
    requires key != [] && Stripped(key) && value != [] && Stripped(value)
    requires AllSpace(pre) && AllSpace(post)
    ensures var t := key + gap1 + "=" + (gap2 + value);
      && pre + key + gap1 + "=" + gap2 + value + post == pre + t + post
      && Strip(pre + t + post) == t
      && FindFirst(pre + t + post, '=').Some?
  {
    var t := key + gap1 + "=" + (gap2 + value);
    AppendAssoc(pre, key, gap1);
    AppendAssoc(pre, key + gap1, "=");
    AppendAssoc(pre + key + gap1 + "=", gap2, value);
    AppendAssoc(pre, key + gap1 + "=", gap2 + value);
    assert t[0] == key[0] && t[|t| - 1] == value[|value| - 1];
    StripPadded(pre, t, post);
    assert (pre + t + post)[|pre| + |key + gap1|] == t[|key + gap1|] == '=';
  }

  lemma PairSplitsAtEquals(key: string, gap1: string, right: string)
    requires forall k :: 0 <= k < |key| ==> key[k] != '='
    requires AllSpace(gap1)
    ensures FindFirst(key + gap1 + "=" + right, '=') == Some(|key + gap1|)
  {
    var left := key + gap1;
    var t := left + "=" + right;
    forall k | 0 <= k < |left| ensures t[k] != '=' {
      if k >= |key| { assert t[k] == gap1[k - |key|] && IsSpace(gap1[k - |key|]); }
      else { assert t[k] == key[k]; }
    }
    assert t[|left|] == '=';
  }

  // ----- read_class_names, and the image list of the main block -----

  /** `[line.strip() for line in lines if line.strip()]` */
  function NonBlank(lines: seq<string>): (r: seq<string>)
    ensures forall i :: 0 <= i < |r| ==> r[i] != [] && Stripped(r[i])
  {
    if lines == [] then []
    else
      StripSlice(lines[0]);
      (if Strip(lines[0]) != [] then [Strip(lines[0])] else []) + NonBlank(lines[1..])
  }

  /** `read_class_names(names_path)` on the text of the file. */
  function ReadClassNames(text: string): seq<string> {
    NonBlank(Lines(text))
  }

  /** A file listing stripped names one per line is read back as exactly those names. */
  lemma {:induction false} ReadClassNamesOfJoin(names: seq<string>)
    requires |names| >= 1
    requires forall i :: 0 <= i < |names| ==> names[i] != [] && Stripped(names[i]) && NoLineBreak(names[i])
    ensures ReadClassNames(JoinLines(names)) == names
  {
    LinesOfJoinLines(names);
    NonBlankOfNames(names);
  }

  lemma {:induction false} NonBlankOfNames(names: seq<string>)
    requires forall i :: 0 <= i < |names| ==> names[i] != [] && Stripped(names[i])
    ensures NonBlank(names) == names
  {
    if names != [] {
      assert [] + names[0] + [] == names[0];
      StripPadded([], names[0], []);
      NonBlankOfNames(names[1..]);
      assert names == [names[0]] + names[1..];
    }
  }

  // ----- split of the image list and label names -----

  /** `int(0.8 * len(image_paths))` */
  function SplitIndex(n: nat): nat {
    n * 4 / 5
  }

  /** The image list without "data/" prefixes, cut into training and validation images. */
  function TrainVal(paths: seq<string>): (seq<string>, seq<string>) {
    var cleaned := seq(|paths|, i requires 0 <= i < |paths| => WithoutDataPrefix(paths[i]));
    var k := SplitIndex(|cleaned|);
    (cleaned[..k], cleaned[k..])
  }

  /**
   * The training images come first and the validation images after them,
   * together the whole list in order with "data/" removed; the training
   * part holds int(0.8 n) of the n images.
   */
  lemma TrainValSpec(paths: seq<string>)
    ensures var (train, val) := TrainVal(paths);
      && |train| + |val| == |paths|
      && 5 * |train| <= 4 * |paths| < 5 * |train| + 5
      && forall i :: 0 <= i < |paths| ==>
        var p := (train + val)[i];
        if StartsWith(paths[i], "data/") then "data/" + p == paths[i] else p == paths[i]
  {
    var (train, val) := TrainVal(paths);
    forall i | 0 <= i < |paths|
      ensures var p := (train + val)[i];
        if StartsWith(paths[i], "data/") then "data/" + p == paths[i] else p == paths[i]
    {
      var p := (train + val)[i];
      assert p == WithoutDataPrefix(paths[i]);
      if StartsWith(paths[i], "data/") {
        assert paths[i] == paths[i][..5] + paths[i][5..];
      }
    }
  }

  /** `os.path.splitext(os.path.basename(img_path))[0] + '.txt'` */
  function LabelName(imgPath: string): (r: string)
    ensures EndsWith(r, ".txt")
  {
    SplitExt(Basename(imgPath)).0 + ".txt"
  }

  /** A label name is a plain file name: it has no '/'. */
  lemma LabelNameIsFileName(imgPath: string)
    ensures NoSlash(LabelName(imgPath))
  {
    BasenameSpec(imgPath);
    var name := Basename(imgPath);
    var stem := SplitExt(name).0;
    assert name == stem + SplitExt(name).1;
    assert forall i :: 0 <= i < |stem| ==> stem[i] == name[i];
  }

  /** The label of `dir/stem.ext` is `stem.txt`, whatever dots the stem has. */
  lemma LabelNameOf(dir: string, stem: string, ext: string)
    requires NoSlash(stem) && !AllDots(stem) && IsExtensionTail(ext)
    ensures LabelName(Join(dir, stem + "." + ext)) == stem + ".txt"
  {
    var name := stem + "." + ext;
    DotBeforeExtension(stem, ext);
    BasenameOfJoin(dir, name);
    assert name[FindLast(name, '/') + 1..FindLast(name, '.')] == stem;
    assert name[..FindLast(name, '.')] == stem;
  }

  /** The paths the main block uses for one image of a split. */
  datatype Transfer = Transfer(imageFrom: string, imageTo: string, labelFrom: string, labelTo: string)

  /**
   * For `img_path` in `split`: the image is copied from the data directory
   * to `images/<split>`, and its annotation, looked up in `obj_train_data`,
   * is converted into `labels/<split>`.
   */
  function TransferOf(dataDir: string, outputRoot: string, split: string, imgPath: string): Transfer {
    var imgName := Basename(imgPath);
    var labelName := LabelName(imgPath);
    Transfer(
      Join(dataDir, imgPath),
      Join(Join(Join(outputRoot, "images"), split), imgName),
      Join(Join(dataDir, "obj_train_data"), labelName),
      Join(Join(Join(outputRoot, "labels"), split), labelName))
  }

  /** The copy keeps the image's base name; source and target of the annotation share the label name. */
  lemma TransferNames(dataDir: string, outputRoot: string, split: string, imgPath: string)
    requires Basename(imgPath) != []
    ensures var t := TransferOf(dataDir, outputRoot, split, imgPath);
      && Basename(t.imageTo) == Basename(imgPath)
      && Basename(t.labelFrom) == LabelName(imgPath)
      && Basename(t.labelTo) == LabelName(imgPath)
  {
    BasenameSpec(imgPath);
    LabelNameIsFileName(imgPath);
    BasenameOfJoin(Join(Join(outputRoot, "images"), split), Basename(imgPath));
    BasenameOfJoin(Join(dataDir, "obj_train_data"), LabelName(imgPath));
    BasenameOfJoin(Join(Join(outputRoot, "labels"), split), LabelName(imgPath));
  }

  // ----- generate_data_yaml -----

  /** The content of `data.yaml`. */
  datatype DataYaml = DataYaml(path: string, train: string, val: string, names: map<int, string>)

  function GenerateDataYaml(outputDir: string, classNames: seq<string>): DataYaml {
    DataYaml(outputDir, "images/train", "images/val", map i | 0 <= i < |classNames| :: classNames[i])
  }

  /** The names listed back in index order: what a YOLO reader makes of the `names` map. */
  function NamesInOrder(names: map<int, string>, n: nat): seq<string>
    requires forall i :: 0 <= i < n ==> i in names
  {
    seq(n, i requires 0 <= i < n => names[i])
  }

  /**
   * The manifest keys its class names by their 0-based position and has no
   * other key, so reading them back in order gives the class list; its
   * image folders are fixed.
   */
  lemma DataYamlNames(outputDir: string, classNames: seq<string>)
    ensures var y := GenerateDataYaml(outputDir, classNames);
      && y.path == outputDir && y.train == "images/train" && y.val == "images/val"
      && (forall k :: k in y.names ==> 0 <= k < |classNames|)
      && (forall i :: 0 <= i < |classNames| ==> i in y.names)
      && NamesInOrder(y.names, |classNames|) == classNames
  {
  }
}
