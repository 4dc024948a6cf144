/**
 * `MarkupParser.parse_markup_file`: reads a polygon annotation file, one
 * shape per line written `class_id x1 y1 x2 y2 ...`, into records
 * `(class_id, [(x1, y1), (x2, y2), ...])`.
 */
module MarkupParser {
  import opened Wrappers
  import opened Text
  import opened Numbers
  import opened Sequences

  datatype Point = Point(x: real, y: real)

  datatype MarkupRecord = MarkupRecord(classId: int, points: seq<Point>)

  /** The underlying failure: the file cannot be opened, or a token is not a number. */
  datatype Cause = CannotOpen | BadInt(token: string) | BadFloat(token: string)

  /** The single exception the parser raises, wrapping its cause. */
  datatype MarkupError = MarkupError(cause: Cause)

  // Python's `float` on a token is the parameter `parseFloat` throughout:
  // `None` stands for the ValueError it raises.  `Numbers.ParseReal` is the
  // instance the viewer passes.

  /** `line.strip().split()` */
  function Tokens(line: string): seq<string> {
    Split(Strip(line))
  }

  /**
   * The points read from `values[i]`, `values[i + 1]`, `values[i + 2]`, ...
   * two tokens at a time; a last token without a partner is never read.
   */
  function ParsePoints(parseFloat: string -> Option<real>, values: seq<string>, i: nat): (r: Result<seq<Point>, Cause>)
    ensures r.Ok? ==> |r.value| == PairCount(values, i)
    ensures r.Ok? ==> forall j :: 0 <= j < |r.value| ==>
      parseFloat(values[i + 2 * j]) == Some(r.value[j].x) && parseFloat(values[i + 2 * j + 1]) == Some(r.value[j].y)
    decreases |values| - i
  {
    if i + 1 >= |values| then Ok([])
    else match parseFloat(values[i])
      case None => Err(BadFloat(values[i]))
      case Some(x) =>
        match parseFloat(values[i + 1])
        case None => Err(BadFloat(values[i + 1]))
        case Some(y) =>
          match ParsePoints(parseFloat, values, i + 2)
          case Err(c) => Err(c)
          case Ok(rest) =>
            var r := [Point(x, y)] + rest;
            assert forall j :: 1 <= j < |r| ==> r[j] == rest[j - 1];
            Ok(r)
  }

  /** The points parse exactly when every token of a complete pair is a number. */
  lemma {:induction false} PointsSucceedIff(parseFloat: string -> Option<real>, values: seq<string>, i: nat)
    ensures ParsePoints(parseFloat, values, i).Ok? <==> forall k :: i <= k < i + 2 * PairCount(values, i) ==> parseFloat(values[k]).Some?
    decreases |values| - i
  {
    if i + 1 < |values| {
      PointsSucceedIff(parseFloat, values, i + 2);
      assert PairCount(values, i) == PairCount(values, i + 2) + 1;
    }
  }

  /** Number of complete (x, y) pairs from position `i` on. */
  function PairCount(values: seq<string>, i: nat): nat {
    if i >= |values| then 0 else (|values| - i) / 2
  }

  /** The record of one line's tokens, or `None` for a line of fewer than two tokens. */
  function ParseTokens(parseFloat: string -> Option<real>, values: seq<string>): Result<Option<MarkupRecord>, Cause> {
    if |values| <= 1 then Ok(None)
    else match ParseInt(values[0])
      case None => Err(BadInt(values[0]))
      case Some(id) =>
        match ParsePoints(parseFloat, values, 1)
        case Err(c) => Err(c)
        case Ok(points) => Ok(Some(MarkupRecord(id, points)))
  }

  /** What the loop body makes of one line of the file. */
  function LineParser(parseFloat: string -> Option<real>): string -> Result<Option<MarkupRecord>, Cause> {
    line => ParseTokens(parseFloat, Tokens(line))
  }

  /**
   * The records of the lines, in line order, or the first line's failure,
   * for any way `parseLine` of reading one line; the parser's own is
   * `LineParser(parseFloat)`.
   */
  function ParseLines(parseLine: string -> Result<Option<MarkupRecord>, Cause>, lines: seq<string>): Result<seq<MarkupRecord>, Cause> {
    if lines == [] then Ok([])
    else match ParseLines(parseLine, lines[..|lines| - 1])
      case Err(c) => Err(c)
      case Ok(records) =>
        match parseLine(lines[|lines| - 1])
        case Err(c) => Err(c)
        case Ok(None) => Ok(records)
        case Ok(Some(record)) => Ok(records + [record])
  }

  /** The whole file; `None` stands for a file that cannot be opened. */
  function ParseMarkup(parseFloat: string -> Option<real>, file: Option<string>): Result<seq<MarkupRecord>, MarkupError> {
    match file
    case None => Err(MarkupError(CannotOpen))
    case Some(text) =>
      match ParseLines(LineParser(parseFloat), Lines(text))
      case Err(c) => Err(MarkupError(c))
      case Ok(records) => Ok(records)
  }

  /** `parse_markup_file`, line by line. */
  method ParseMarkupFile(parseFloat: string -> Option<real>, file: Option<string>) returns (r: Result<seq<MarkupRecord>, MarkupError>)
    ensures r == ParseMarkup(parseFloat, file)
  {
    if file.None? {
      return Err(MarkupError(CannotOpen));
    }
    var lines := Lines(file.value);
    var markupData: seq<MarkupRecord> := [];
    var n := 0;
    while n < |lines|
      invariant 0 <= n <= |lines|
      invariant ParseLines(LineParser(parseFloat), lines[..n]) == Ok(markupData)
    {
      var line := ParseLine(parseFloat, lines[n]);
      ParseLinesStep(LineParser(parseFloat), lines, n, markupData);
      match line {
        case Err(c) =>
          FailurePersists(LineParser(parseFloat), lines, n + 1);
          return Err(MarkupError(c));
        case Ok(None) =>
        case Ok(Some(record)) =>
          markupData := markupData + [record];
      }
      n := n + 1;
    }
    assert lines[..n] == lines;
    return Ok(markupData);
  }

  /**
   * The body of the line loop, as executed: it computes `LineParser`, and
   * stands apart so that the loop's proof stays small.
   */
  method ParseLine(parseFloat: string -> Option<real>, line: string) returns (r: Result<Option<MarkupRecord>, Cause>)
    ensures r == LineParser(parseFloat)(line)
  {
    r := ParseLineTokens(parseFloat, Tokens(line));
  }

  /** One more line read by the loop. */
  lemma ParseLinesStep(parseLine: string -> Result<Option<MarkupRecord>, Cause>, lines: seq<string>, n: nat, records: seq<MarkupRecord>)
    requires n < |lines| && ParseLines(parseLine, lines[..n]) == Ok(records)
    ensures ParseLines(parseLine, lines[..n + 1]) ==
      match parseLine(lines[n])
      case Err(c) => Err(c)
      case Ok(None) => Ok(records)
      case Ok(Some(record)) => Ok(records + [record])
  {
    assert lines[..n + 1][..n] == lines[..n];
  }

  /** The class id, then the points pair by pair. */
  method ParseLineTokens(parseFloat: string -> Option<real>, values: seq<string>) returns (r: Result<Option<MarkupRecord>, Cause>)
    ensures r == ParseTokens(parseFloat, values)
  {
    if |values| <= 1 {
      return Ok(None);
    }
    var classId := ParseInt(values[0]);
    if classId.None? {
      return Err(BadInt(values[0]));
    }
    var points: seq<Point> := [];
    var i := 1;
    match ParsePoints(parseFloat, values, 1) {
      case Ok(all) => assert [] + all == all;
      case Err(_) =>
    }
    while i < |values|
      invariant 1 <= i <= |values| + 1 && i % 2 == 1
      invariant ParsePoints(parseFloat, values, 1) == Prepend(points, ParsePoints(parseFloat, values, i))
    {
      if i + 1 < |values| {
        var x := parseFloat(values[i]);
        if x.None? {
          return Err(BadFloat(values[i]));
        }
        var y := parseFloat(values[i + 1]);
        if y.None? {
          return Err(BadFloat(values[i + 1]));
        }
        var rest := ParsePoints(parseFloat, values, i + 2);
        if rest.Ok? {
          AppendAssoc(points, [Point(x.value, y.value)], rest.value);
        }
        points := points + [Point(x.value, y.value)];
      }
      i := i + 2;
    }
    assert points + [] == points;
    return Ok(Some(MarkupRecord(classId.value, points)));
  }

  /** `points` in front of the points of a successful parse; a failure is kept. */
  function Prepend(points: seq<Point>, r: Result<seq<Point>, Cause>): Result<seq<Point>, Cause> {
    match r
    case Err(c) => Err(c)
    case Ok(rest) => Ok(points + rest)
  }

  /** Once a line fails, the whole file fails with that line's cause. */
  lemma {:induction false} FailurePersists(parseLine: string -> Result<Option<MarkupRecord>, Cause>, lines: seq<string>, n: nat)
    requires n <= |lines| && ParseLines(parseLine, lines[..n]).Err?
    ensures ParseLines(parseLine, lines) == ParseLines(parseLine, lines[..n])
    decreases |lines| - n
  {
    if n < |lines| {
      assert lines[..n + 1][..n] == lines[..n];
      FailurePersists(parseLine, lines, n + 1);
    } else {
      assert lines[..n] == lines;
    }
  }

  // ---------------------------------------------------------------------
  // Properties of the parser

  /**
   * A line of k >= 2 tokens is one record: its class id is `int` of the
   * first token and point j is (tokens[2j+1], tokens[2j+2]), so there are
   * (k - 1) / 2 points; a line of fewer tokens is no record.
   */
  lemma LineRecord(parseFloat: string -> Option<real>, values: seq<string>)
    ensures |values| <= 1 ==> ParseTokens(parseFloat, values) == Ok(None)
    ensures |values| >= 2 && ParseTokens(parseFloat, values).Ok? ==>
      && ParseTokens(parseFloat, values).value.Some?
      && var rec := ParseTokens(parseFloat, values).value.value;
      && ParseInt(values[0]) == Some(rec.classId)
      && |rec.points| == (|values| - 1) / 2
      && forall j :: 0 <= j < |rec.points| ==>
           parseFloat(values[2 * j + 1]) == Some(rec.points[j].x) && parseFloat(values[2 * j + 2]) == Some(rec.points[j].y)
  {
  }

  /**
   * A line parses exactly when its first token is an integer and every
   * token that belongs to a complete pair is a number: the unpaired last
   * token of an even-length line is never converted.
   */
  lemma LineSucceedsIff(parseFloat: string -> Option<real>, values: seq<string>)
    requires |values| >= 2
    ensures ParseTokens(parseFloat, values).Ok? <==>
      ParseInt(values[0]).Some? &&
      forall k :: 1 <= k <= 2 * ((|values| - 1) / 2) ==> parseFloat(values[k]).Some?
  {
    PointsSucceedIff(parseFloat, values, 1);
  }

  /** Appending a token to a line with an odd token count changes nothing: it has no partner. */
  lemma {:induction false} TrailingTokenIgnored(parseFloat: string -> Option<real>, values: seq<string>, extra: string)
    requires |values| >= 3 && |values| % 2 == 1
    ensures ParseTokens(parseFloat, values + [extra]) == ParseTokens(parseFloat, values)
  {
    assert (values + [extra])[0] == values[0];
    PointsIgnoreTrailing(parseFloat, values, extra, 1);
  }

  lemma {:induction false} PointsIgnoreTrailing(parseFloat: string -> Option<real>, values: seq<string>, extra: string, i: nat)
    requires i % 2 == 1 && |values| % 2 == 1 && i <= |values|
    ensures ParsePoints(parseFloat, values + [extra], i) == ParsePoints(parseFloat, values, i)
    decreases |values| - i
  {
    var w := values + [extra];
    if i + 1 < |values| {
      assert w[i] == values[i] && w[i + 1] == values[i + 1];
      PointsIgnoreTrailing(parseFloat, values, extra, i + 2);
    }
  }

  function AcceptedCount(lines: seq<string>): nat {
    if lines == [] then 0
    else AcceptedCount(lines[..|lines| - 1]) + (if |Tokens(lines[|lines| - 1])| > 1 then 1 else 0)
  }

  /** A line that parses is a record exactly when it has at least two tokens. */
  lemma LineAccepted(parseFloat: string -> Option<real>, line: string)
    requires LineParser(parseFloat)(line).Ok?
    ensures LineParser(parseFloat)(line).value.Some? <==> |Tokens(line)| > 1
  {
    TokensAccepted(parseFloat, Tokens(line));
  }

  lemma TokensAccepted(parseFloat: string -> Option<real>, values: seq<string>)
    requires ParseTokens(parseFloat, values).Ok?
    ensures ParseTokens(parseFloat, values).value.Some? <==> |values| > 1
  {
  }

  /** A file that parses gives one record per line of at least two tokens, and no other. */
  lemma {:induction false} OneRecordPerAcceptedLine(parseFloat: string -> Option<real>, lines: seq<string>)
    requires ParseLines(LineParser(parseFloat), lines).Ok?
    ensures |ParseLines(LineParser(parseFloat), lines).value| == AcceptedCount(lines)
  {
    if lines != [] {
      OneRecordPerAcceptedLine(parseFloat, lines[..|lines| - 1]);
      LineAccepted(parseFloat, lines[|lines| - 1]);
    }
  }

  /** Records keep the order of the lines: the records of two parts of a file follow each other. */
  lemma {:induction false} RecordsInLineOrder(parseLine: string -> Result<Option<MarkupRecord>, Cause>, front: seq<string>, back: seq<string>)
    requires ParseLines(parseLine, front + back).Ok?
    ensures ParseLines(parseLine, front).Ok? && ParseLines(parseLine, back).Ok?
    ensures ParseLines(parseLine, front + back).value == ParseLines(parseLine, front).value + ParseLines(parseLine, back).value
    decreases |back|
  {
    if back == [] {
      assert front + back == front;
    } else {
      var init := back[..|back| - 1];
      var last := back[|back| - 1];
      assert (front + back)[..|front + back| - 1] == front + init;
      assert (front + back)[|front + back| - 1] == last;
      RecordsInLineOrder(parseLine, front, init);
      if parseLine(last).value.Some? {
        AppendAssoc(ParseLines(parseLine, front).value, ParseLines(parseLine, init).value, [parseLine(last).value.value]);
      }
    }
  }

  /** The file fails exactly when some line fails; no partial list is ever returned. */
  lemma {:induction false} FailsIffSomeLineFails(parseLine: string -> Result<Option<MarkupRecord>, Cause>, lines: seq<string>)
    ensures ParseLines(parseLine, lines).Err? <==> exists i :: 0 <= i < |lines| && parseLine(lines[i]).Err?
  {
    if lines != [] {
      var init := lines[..|lines| - 1];
      FailsIffSomeLineFails(parseLine, init);
      var last := lines[|lines| - 1];
      if ParseLines(parseLine, init).Err? {
        var i :| 0 <= i < |init| && parseLine(init[i]).Err?;
        assert init[i] == lines[i];
      } else if parseLine(last).Err? {
      } else {
        forall i | 0 <= i < |lines| ensures parseLine(lines[i]).Ok? {
          if i < |init| { assert init[i] == lines[i]; }
        }
      }
    }
  }
}
