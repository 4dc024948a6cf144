# Contour markup tools, modelled in Dafny

This project models the core of a small toolkit for polygon ("contour") annotations of video frames. An image such as `42.jpg` goes with a markup file `42.txt`. Each line of a markup file holds a class id followed by normalised `x y` vertex pairs.

The model covers four parts of the toolkit:

- **Markup parser** (`contour_visualizer/markup_parser.py`) reads a markup file into `(class_id, points)` records. A line with fewer than two tokens is skipped. An odd trailing coordinate is dropped. Any failure becomes one wrapped error.
- **Markup viewer** (`contour_visualizer/markup_viewer.py`) is the state of the Tk viewer:
  - the image and markup lists of the chosen folder, and the current index;
  - the markup path paired with the shown image and the records drawn over it;
  - the zoom factor and the panning state.
  
  Its commands are modelled as methods of the class `MarkupViewer`. They cover opening a folder and showing an image. They cover next and previous, which jump to the nearest available frame number and show gap and wrap notices. They also cover jumping to a frame (exact, else the first higher number in the sort order, else the earliest), zoom and pan.
- **Image processor** (`image_processor.py`) draws markup over an image. Each vertex gets a filled circle and consecutive vertices are joined. The polygon is closed when it has more than two vertices, and its class id is written near the first vertex, in the class's palette colour or white. The image is then prepared for display, with an optional guarded resize.
- **YOLO converter** (`contour_yolo_converter/converter.py`) turns each polygon into its bounding box (centre, width, height). It also reads `obj.data` and `obj.names`, splits the image list 80/20 into train and val, names the label files and builds the `data.yaml` mapping.

The modules are:

- `Wrappers`: `Option` and `Result`.
- `Text`: Python's `str.strip`, `str.split()`, line splitting, and prefix and suffix tests.
- `Numbers`: `int()` on decimal strings, `str()` of integers, a decimal `float()`, and `int()` truncation of reals.
- `Paths`: `os.path.basename`, `PurePath.stem`, `os.path.splitext`, `os.path.join`, the `"*.<ext>"` glob and `sorted` on strings.
- `MarkupParser`, `FrameSearch` (the index searches of the viewer), `Viewer`, `ImageProcessing` and `Converter`.

State that the source changes in place is modelled as classes:

- `Viewer.MarkupViewer`;
- `ImageProcessing.Canvas`, an image whose drawing calls are recorded in order;
- `ImageProcessing.ImageProcessor`.

Each loop inside the modelled functions and methods of the source is a method proved equal to a specification function. The properties of that function are proved as lemmas. The loop of the converter's main block is the exception: only its per-image step is modelled, as the function `Converter.TransferOf`.

File contents, directory listings, which paths exist and which images decode are all inputs; see `Viewer.Disk`. So are the folder chosen in a dialog and the number typed into one. Message boxes are returned as `Notice` values. Python's `float()` on a token is a parameter `parseFloat` of the parser and the converter. The viewer instantiates it with `Numbers.ParseReal`.

## Model

| member | source | states |
|---|---|---|
| Numbers.ParseIntSpec | contour_visualizer/markup_viewer.py:174-180 | `int()` of a stem succeeds exactly on an optional sign followed by one or more decimal digits, with the value those digits denote |
| Numbers.IntToString | contour_visualizer/markup_viewer.py:242-243 | `str(n)` is a signed decimal numeral that `int()` reads back as `n` |
| Numbers.Trunc | image_processor.py:39-40 | `int()` of a real truncates toward zero: the result is within one of the argument, on the zero side |
| Text.SplitJoinWords | contour_visualizer/markup_parser.py:12 | splitting on white space gives back non-empty, space-free words that were joined by single spaces |
| Text.StripSlice | contour_visualizer/markup_parser.py:12 | `strip()` returns the slice of the line from its first to its last non-space character, with no white space at either end |
| Text.JoinLinesOfLines | contour_visualizer/markup_parser.py:10-11 | for a text without '\r', reading it line by line and joining the lines again gives back the text |
| Text.LinesOfJoinLines | contour_yolo_converter/converter.py:44-45 | lines without line breaks, joined into a file, are read back as the same lines |
| Text.FindLastSpec | contour_yolo_converter/converter.py:86 | the last occurrence of a character: it is there, and none comes after it |
| Paths.BasenameSpec | contour_yolo_converter/converter.py:86 | the base name is the slash-free tail of the path, and a slash-free path is its own base name |
| Paths.SplitExt | contour_yolo_converter/converter.py:87 | the root and extension concatenate to the path, and the extension is empty or a dot followed by no dot and no slash |
| Paths.SplitExtCuts | contour_yolo_converter/converter.py:87 | the extension is non-empty exactly when the final component holds a '.' with some other character before it |
| Paths.BasenameOfJoin | contour_visualizer/markup_viewer.py:158-164 | joining a plain file name to a folder keeps that name as the base name |
| Paths.StemOfJoin | contour_visualizer/markup_viewer.py:174-176 | the stem of `<dir>/<stem>.<ext>` is `<stem>` when the stem has no slash and the extension no dot or slash |
| Paths.GlobSpec | contour_visualizer/markup_viewer.py:158-164 | the pattern `*.ext` yields exactly the joined paths of the visible entries ending in `.ext` |
| Paths.GlobEmpty | contour_visualizer/markup_viewer.py:159-162 | the glob is empty exactly when no entry has the extension |
| Paths.SortNames | contour_visualizer/markup_viewer.py:158-164 | `sorted` gives an arrangement of the same paths in code-point order |
| Paths.Insert | contour_visualizer/markup_viewer.py:158-164 | inserting a path into a sorted list keeps it sorted and adds exactly that path |
| Paths.SortedUnique | contour_visualizer/markup_viewer.py:158-164 | there is only one sorted arrangement of a list of paths, so the model's sort is Python's |
| MarkupParser.ParsePoints | contour_visualizer/markup_parser.py:16-20 | each point is the parsed pair of tokens at its position, and there are as many points as complete pairs after the class id |
| MarkupParser.PointsSucceedIff | contour_visualizer/markup_parser.py:16-20 | the points parse exactly when every token of a complete pair is a valid float |
| MarkupParser.ParseLineTokens | contour_visualizer/markup_parser.py:12-21 | the per-line loop computes the line's record, skip or error |
| MarkupParser.ParseLine | contour_visualizer/markup_parser.py:11-21 | one line read by the file loop gives the record, skip or error the line parser assigns it |
| MarkupParser.ParseMarkupFile | contour_visualizer/markup_parser.py:5-25 | the file loop computes the parse of the whole file, and an unreadable file or a bad line becomes the wrapped error |
| MarkupParser.LineRecord | contour_visualizer/markup_parser.py:12-21 | a line with at most one token yields no record, and an accepted line yields its class id with the pairs that follow |
| MarkupParser.LineSucceedsIff | contour_visualizer/markup_parser.py:14-20 | a line of two or more tokens parses exactly when the class id is an integer and every paired coordinate is a float |
| MarkupParser.TrailingTokenIgnored | contour_visualizer/markup_parser.py:17 | any token after a complete set of pairs is ignored, even one that is not a number |
| MarkupParser.PointsIgnoreTrailing | contour_visualizer/markup_parser.py:16-17 | an extra unpaired token does not change the points parsed |
| MarkupParser.FailurePersists | contour_visualizer/markup_parser.py:9-25 | once a line fails, the lines after it do not change the outcome |
| MarkupParser.OneRecordPerAcceptedLine | contour_visualizer/markup_parser.py:11-21 | a successful parse has one record per line with two or more tokens |
| MarkupParser.RecordsInLineOrder | contour_visualizer/markup_parser.py:11-21 | the records of a file are those of its first part followed by those of the rest |
| MarkupParser.FailsIffSomeLineFails | contour_visualizer/markup_parser.py:9-25 | parsing fails exactly when some line fails |
| FrameSearch.FrameNumberOfName | contour_visualizer/markup_viewer.py:174-180 | a file named `<n>.<ext>` in any folder has frame number `n` |
| FrameSearch.PickScan | contour_visualizer/markup_viewer.py:187-213 | the collect, sort and scan loops find what `Pick` specifies |
| FrameSearch.PickSpec | contour_visualizer/markup_viewer.py:198-213 | the scan yields the first eligible frame in the order of the search, and nothing exactly when no frame is eligible |
| FrameSearch.IndexOf | contour_visualizer/markup_viewer.py:203 | `list.index` gives the first position holding the path |
| FrameSearch.IndexOfFirstInOrder | contour_visualizer/markup_viewer.py:200-206 | for a forward or sort-key scan, `list.index` of the path found gives back its own position |
| FrameSearch.FindNextAvailableFrame | contour_visualizer/markup_viewer.py:182-213 | the method computes `NextAvailable` |
| FrameSearch.NextAvailableExists | contour_visualizer/markup_viewer.py:182-213 | a next available frame exists exactly when some file has a frame number |
| FrameSearch.ForwardSearch | contour_visualizer/markup_viewer.py:198-206 | forward: the first file holding the smallest number above the current one; otherwise index 0 with the smallest number of all |
| FrameSearch.BackwardSearch | contour_visualizer/markup_viewer.py:207-213 | backward: the largest number below the current one, at the first position of its path; otherwise the last index with the largest number of all |
| FrameSearch.BackwardHit | contour_visualizer/markup_viewer.py:207-213 | when some frame lies below the current one, the backward scan stops at the largest of them |
| FrameSearch.BackwardWrap | contour_visualizer/markup_viewer.py:207-213 | when no frame lies below the current one, the backward scan ends on the last file, holding the largest frame |
| FrameSearch.BackwardSearchDistinct | contour_visualizer/markup_viewer.py:207-213 | with distinct paths, the backward search lands on the last file holding that largest lower number |
| FrameSearch.FirstWith | contour_visualizer/markup_viewer.py:415-419 | the exact match is the first position holding the frame, and no position holds it when none is found |
| FrameSearch.FindFrame | contour_visualizer/markup_viewer.py:415-419 | the exact-match loop computes `FirstWith` |
| FrameSearch.FrameAt | contour_visualizer/markup_viewer.py:174-180 | the frame number read from the i-th file is the i-th entry of the frame list |
| FrameSearch.JumpSearch | contour_visualizer/markup_viewer.py:405-447 | the three scans of the jump, in order, compute `JumpTarget` |
| FrameSearch.JumpTargetSpec | contour_visualizer/markup_viewer.py:405-447 | an exact match if one exists; else the first file above the number in sort-key order; else the first numbered file in that order; nothing only when no file is numbered |
| FrameSearch.JumpLater | contour_visualizer/markup_viewer.py:421-436 | with no exact match, the jump goes to the first file, in sort-key order, among those above the requested frame |
| FrameSearch.JumpEarliest | contour_visualizer/markup_viewer.py:436-445 | with no frame above the requested one, the jump goes to the first file in sort-key order |
| FrameSearch.JumpNoNumeric | contour_visualizer/markup_viewer.py:437-447 | the jump finds nothing only when no file is numbered |
| FrameSearch.JumpReachesZeroLast | contour_visualizer/markup_viewer.py:422-445 | because the sort key treats frame 0 as infinite, a non-exact jump lands on frame 0 only when every candidate frame is 0 |
| FrameSearch.FirstSameStemSpec | contour_visualizer/markup_viewer.py:230-236 | the markup file chosen first is the first one with the image's stem, and none is chosen when no stem matches |
| FrameSearch.StemScan | contour_visualizer/markup_viewer.py:232-236 | the scan with `break` stops at the first markup file with the same stem |
| FrameSearch.FindMarkupPath | contour_visualizer/markup_viewer.py:228-255 | the pairing loop computes `PairedMarkup` |
| FrameSearch.PairedMarkupFrame | contour_visualizer/markup_viewer.py:238-255 | the paired markup file has the image's frame number, and a stem such as "007" falls back to "7.txt" |
| FrameSearch.PairedMarkupCases | contour_visualizer/markup_viewer.py:228-255 | same stem first; else the numbered file when it exists; else no markup |
| Viewer.ShowImageSpec | contour_visualizer/markup_viewer.py:215-265 | an image that fails to load leaves the overlay alone; otherwise the drawn records are those of the paired file, and nothing is drawn (with a notice on a parse error) when there is none or it fails |
| Viewer.LoadOverlay | contour_visualizer/markup_viewer.py:228-265 | for a decodable image, the pairing and loading steps produce the overlay and warnings that `ShowImage` specifies |
| Viewer.ListFiles | contour_visualizer/markup_viewer.py:157-164 | the image list is the sorted glob of the chosen extension and the markup list is the sorted glob of `*.txt` |
| Viewer.ImageExtensionPrecedence | contour_visualizer/markup_viewer.py:158-162 | `.jpeg` files are listed if any exist, else `.jpg`, else `.png` |
| Viewer.StepFrom | contour_visualizer/markup_viewer.py:352-403 | the body of next and previous computes `Step` |
| Viewer.NumberedStepFrom | contour_visualizer/markup_viewer.py:355-398 | from a numbered file, the frame search result decides the new index and the wrap notice |
| Viewer.WrapIndex | contour_visualizer/markup_viewer.py:372-399 | Python's `%` on an index one past either end wraps to the other end, and otherwise moves by one |
| Viewer.StepInRange | contour_visualizer/markup_viewer.py:352-403 | a step never leaves the list |
| Viewer.NumberedStep | contour_visualizer/markup_viewer.py:355-398 | from a numbered file: go where the frame search points; wrap notice exactly when that is the current index; otherwise the gap notice exactly when the target frame is non-zero and beyond the neighbouring number |
| Viewer.UnnumberedStep | contour_visualizer/markup_viewer.py:370-401 | from an unnumbered file: move to the neighbouring index modulo the list length, with the end or start notice exactly when that wraps around |
| Viewer.MarkupViewer.constructor | contour_visualizer/markup_viewer.py:19-35 | empty lists, index 0, no paths, zoom 1.0, not panning |
| Viewer.MarkupViewer.ShowCurrentImage | contour_visualizer/markup_viewer.py:215-265 | nothing happens when the index is past the list; otherwise the display shows `ShowImage` of the current path, and the lists, index, zoom and pan are unchanged |
| Viewer.MarkupViewer.OpenFolder | contour_visualizer/markup_viewer.py:151-172 | a cancelled dialog changes only the base path; a folder without images or markup gives the error notice; otherwise the first image is shown at zoom 1.0 |
| Viewer.MarkupViewer.ShowFirst | contour_visualizer/markup_viewer.py:170-172 | index 0, zoom 1.0, and the first image shown |
| Viewer.MarkupViewer.Navigate | contour_visualizer/markup_viewer.py:352-403 | next or previous moves the index by `Step` and shows the new image; with an empty list nothing changes, and an index past the list is reported and changes nothing |
| Viewer.MarkupViewer.JumpToImage | contour_visualizer/markup_viewer.py:405-447 | an empty list or a cancelled dialog does nothing, and no numbered file leaves the index with its notice; otherwise the index becomes the jump target, the image is shown, and an inexact jump is reported |
| Viewer.MarkupViewer.ZoomIn | contour_visualizer/markup_viewer.py:449-452 | the zoom grows by one step; the lists, the paths, the overlay, the index and the pan state stay |
| Viewer.MarkupViewer.ZoomOut | contour_visualizer/markup_viewer.py:454-458 | the zoom shrinks by one step only while it is larger than the step, so it stays positive; the lists, the paths, the overlay, the index and the pan state stay |
| Viewer.MarkupViewer.ResetZoom | contour_visualizer/markup_viewer.py:460-464 | the zoom returns to 1.0 and nothing else changes |
| Viewer.MarkupViewer.StartPan | contour_visualizer/markup_viewer.py:466-470 | panning starts at the pointer position; the lists, the paths, the overlay, the index and the zoom stay |
| Viewer.MarkupViewer.PanImage | contour_visualizer/markup_viewer.py:472-487 | while panning, the view scrolls by the distance moved since the last event, which becomes the new start; otherwise nothing happens; the lists, the paths, the overlay, the index and the zoom stay in both cases |
| Viewer.MarkupViewer.StopPan | contour_visualizer/markup_viewer.py:489-491 | panning stops at the last start position; the lists, the paths, the overlay, the index and the zoom stay |
| ImageProcessing.ImageProcessor.constructor | image_processor.py:6-19 | the colours are the ten-entry palette |
| ImageProcessing.PaletteColor | image_processor.py:8-34 | class ids 0 to 9 take their palette colour and every other id takes white |
| ImageProcessing.PixelInside | image_processor.py:37-41 | a normalised coordinate in [0, 1) becomes a pixel inside the image |
| ImageProcessing.PixelPoints | image_processor.py:37-41 | there is one pixel per point |
| ImageProcessing.ToPixels | image_processor.py:37-41 | the conversion loop computes `PixelPoints` |
| ImageProcessing.VertexCallsKinds | image_processor.py:44-50 | the vertex loop draws a circle at every vertex in order and a segment between each pair of consecutive vertices, and no label |
| ImageProcessing.VertexCallsColor | image_processor.py:44-50 | every vertex call uses the shape's colour |
| ImageProcessing.ShapeCallsKinds | image_processor.py:44-62 | a shape gets circles at its vertices and its consecutive segments, plus the closing segment exactly when it has more than two vertices, and one label with its class id at the first vertex offset by (5, 5) exactly when it has a vertex, all in one colour |
| ImageProcessing.DrawShape | image_processor.py:44-62 | drawing one shape appends exactly its calls to the image |
| ImageProcessing.DrawPlanCounts | image_processor.py:33-62 | the markup draws one circle per vertex and one label per non-empty shape, each in the colour of some record's class |
| ImageProcessing.DrawPlanColors | image_processor.py:44-62 | every drawing call uses the colour of the class id of some shape in the markup |
| ImageProcessing.Canvas.Draw | image_processor.py:45-62 | a drawing call is added to the image after the earlier ones |
| ImageProcessing.ImageProcessor.ApplyMarkup | image_processor.py:25-64 | no image gives no image; otherwise the same image is returned with the drawing calls of every record appended in order |
| ImageProcessing.ImageProcessor.PrepareForTk | image_processor.py:66-81 | no image gives no photo; the photo keeps the drawing; its size changes only when both dimensions are given and positive, and then it is exactly that size |
| Converter.Coords | contour_yolo_converter/converter.py:15 | all coordinates parse, in order; else the error names a token that is not a float |
| Converter.Evens | contour_yolo_converter/converter.py:16 | the x coordinates are the even positions |
| Converter.Odds | contour_yolo_converter/converter.py:17 | the y coordinates are the odd positions |
| Converter.Min | contour_yolo_converter/converter.py:18-21 | `min` is an element no larger than any other |
| Converter.Max | contour_yolo_converter/converter.py:18-21 | `max` is an element no smaller than any other |
| Converter.BoxOfSpec | contour_yolo_converter/converter.py:18-25 | the box has non-negative size, contains every vertex and touches the extreme coordinates on each side |
| Converter.VertexInBox | contour_yolo_converter/converter.py:15-25 | each parsed vertex of a line lies inside the line's box |
| Converter.ConvertLineSkipped | contour_yolo_converter/converter.py:11-13 | a line is skipped exactly when it has fewer than three tokens or an even number of them |
| Converter.ConvertLineBox | contour_yolo_converter/converter.py:11-26 | a converted line keeps its class id token, and every vertex of the line lies in its box of non-negative size |
| Converter.ConvertOne | contour_yolo_converter/converter.py:11-26 | the loop body computes the line's conversion |
| Converter.ConvertAnnotation | contour_yolo_converter/converter.py:7-26 | the file loop computes `ConvertLines` over the lines of the input |
| Converter.ConvertLinesClean | contour_yolo_converter/converter.py:9-26 | with no bad line, the output is the box of every accepted line, in order |
| Converter.ConvertLinesFails | contour_yolo_converter/converter.py:10-15 | at the first bad line, the boxes of the lines before it have been written and the conversion stops with its error |
| Converter.ConvertFailsIff | contour_yolo_converter/converter.py:10-15 | the conversion fails exactly when some line fails |
| Converter.FailureStops | contour_yolo_converter/converter.py:9-15 | after a failure, later lines change nothing |
| Converter.ObjLine | contour_yolo_converter/converter.py:33-39 | the loop body computes the line's key and value |
| Converter.ParseObjData | contour_yolo_converter/converter.py:28-40 | the file loop computes `ObjData` over the lines of the file |
| Converter.ObjDataKeys | contour_yolo_converter/converter.py:32-39 | a key is present exactly when some line containing '=' has it as its key |
| Converter.ObjDataLastWins | contour_yolo_converter/converter.py:39 | a key holds the value of its last line |
| Converter.ObjEntryOfPair | contour_yolo_converter/converter.py:33-38 | a padded `key = value` line gives the stripped key and value, with "data/" removed from the value for train, names and backup |
| Converter.EntryOfParts | contour_yolo_converter/converter.py:33-38 | a line split at its first '=' gives the stripped key and value, and a leading "data/" is dropped from the value of the train, names and backup keys |
| Converter.NonBlank | contour_yolo_converter/converter.py:46 | every kept name is non-empty and stripped |
| Converter.ReadClassNamesOfJoin | contour_yolo_converter/converter.py:42-46 | a names file of stripped names, one per line, reads back as those names |
| Converter.TrainValSpec | contour_yolo_converter/converter.py:79-82 | train and val together are the image list with "data/" removed, in order, and train holds `int(0.8 n)` of the n paths |
| Converter.LabelName | contour_yolo_converter/converter.py:86-87 | the label name ends in ".txt" |
| Converter.LabelNameIsFileName | contour_yolo_converter/converter.py:86-87 | the label name is a file name with no folder part |
| Converter.LabelNameOf | contour_yolo_converter/converter.py:86-87 | the image `<dir>/<stem>.<ext>` has label `<stem>.txt` |
| Converter.TransferNames | contour_yolo_converter/converter.py:84-92 | the copied image and the converted label keep their base names under `images/<split>` and `labels/<split>` |
| Converter.DataYamlNames | contour_yolo_converter/converter.py:48-55 | the YAML has the fixed train and val folders, its name keys are exactly 0 to n-1, and it lists the class names in order |

## Left out

- Everything Tk draws is left out: the window, buttons, canvas, scroll bars, the file-information text and the overlay label texts (`markup_viewer.py` 267-350, 289-295). `mouse_wheel` is left out too. The model keeps which image and which records are on display, and the scroll amounts.
- `load_image` (`cv2.imread`) is left out. Whether an image decodes is part of the `Disk` input. The drawing calls of `ImageProcessing.Canvas` stand in for pixels, and the rendering of circles, lines and text is not modelled.
- ImageProcessing.ImageProcessor.PrepareForTk: the BGR-to-RGB conversion, the LANCZOS filter and the `PhotoImage` handle are not modelled. Only the drawing and the size carry over.
- All file input and output is left out: `open`, `readlines`, writing the converted file, `mkdir`, `shutil.copy`, `Path.exists` and `yaml.dump`. File contents and existence are inputs, and the converter's outputs are values such as `Converted`, `Transfer` and `DataYaml`.
- Converter.ConvertAnnotation: the `.6f` formatting of the written numbers is not modelled. The output holds the exact box values.
- The converter's main-block loop over the train and val images (`contour_yolo_converter/converter.py:84-94`) is not modelled as a loop. `Converter.TransferOf` gives the copy and label paths of one image, so the order of the copies and what an earlier copy or conversion does to a later one are not captured.
- The command-line part of the converter (`argparse`, the default output folder) is left out. So is the `KeyError` its main block raises when `obj.data` lacks `names` or `train`.
- `yolo_markup_visualizer.py`, `image_size_changer.py` and the launcher are not part of this model.
- ImageProcessing.PixelOf: coordinates are exact reals, so where Python's binary float product falls just below an integer the program truncates one lower. For example `int(0.29 * 100)` is 28 in Python, and the model gives 29. The drawn circles, segments and label can then sit one pixel away from the program's.
- Numbers.ParseReal accepts an optional sign and decimal digits with at most one point. Python's `float()` also takes exponents, `inf`, `nan`, underscores and surrounding space. The parser and the converter take `float()` as a parameter of type `string -> Option<real>`, so an instantiation can read exponents and underscores exactly. `inf` and `nan` have no `real` value, though, so every part of the model (viewer, parser and converter) refuses them or gives them some other value. The program accepts them: `0 nan 0.5 0.3 0.4` gives a record in `parse_markup_file`, and `convert_annotation` builds a box from `min` and `max` over `nan`.
- Numbers.ParseInt accepts an optional sign and ASCII digits. Python's `int()` also takes surrounding space, underscores and non-ASCII digits.
- Text.Lines breaks at '\n' and '\r', as Python's universal newlines do. It turns "\r\n" into two breaks, with an empty line between them. Every reader here skips empty lines, so the records, boxes, entries and names are the same.
- Viewer.MarkupViewer.ZoomOut: the zoom is an exact real. With binary floats, nine steps down from 1.0 leave 0.10000000000000014. That is still above the step, so Python takes a tenth step to about 1.4e-16, which the exact model does not. The exact model stops at 0.1.
- FrameSearch.PickScan: the source's `sort` followed by a scan is modelled as a scan for the first element in the sort order. Python's sort is stable, so this is the same element.
- Converter.TrainValSpec: `int(0.8 * n)` is modelled as `n * 4 / 5`. The two agree for every list length below two million.
- Viewer.MarkupViewer.Navigate: with the index past the list, `next_image` raises an `IndexError` that Tk reports. The model changes nothing and returns a notice instead.
- Paths.Join models `os.path.join` on strings. The `pathlib` `/` operator in the converter's main block also normalises repeated slashes, which this model does not.
- Paths.Glob matches `*.ext` case-sensitively on a flat listing of names, as on POSIX. Sub-directories named like files are treated as files. The folder part of the pattern is taken literally, while Python's `glob` also reads `[`, `]`, `*` and `?` in the chosen folder's path as pattern characters. So for a folder such as `run[1]` the program finds nothing while `Glob` lists its entries.
