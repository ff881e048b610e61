/** `maya2ae.py`: the After Effects script that `writeJSX` produces, the
    names and key writes of `bakeCamLoc`, and the checks and file names of
    `MAYA2AE.export2ae`.

    Maya is reduced to what these rules ask of it: whether an object is a
    camera, and the value a helper locator's channel has on a frame. */
module Maya2AE {
  import opened Lists
  import opened Text
  import opened Paths

  // ---------------------------------------------------------------------
  // writeJSX

  /** One `var name = "value"` line of the script header. */
  datatype Assignment = Assignment(name: string, value: string)

  function AssignLine(a: Assignment): string {
    "var " + (a.name + ValueTail(a.value))
  }

  /** The part of an assignment line after the name: ` = "value"`. */
  function ValueTail(v: string): string {
    " = \"" + v + "\""
  }

  /** The header lines, each followed by a line break. */
  function Lines(asg: seq<Assignment>): string {
    if asg == [] then "" else AssignLine(asg[0]) + "\n" + Lines(asg[1..])
  }

  /** The header of the script: an empty first line, then the assignments. */
  function Header(asg: seq<Assignment>): string {
    "\n" + Lines(asg)
  }

  /** A name can head an assignment line that is read back. */
  predicate Readable(asg: seq<Assignment>) {
    forall i :: 0 <= i < |asg| ==> asg[i].name != [] && NoSpace(asg[i].name) && '\n' !in asg[i].value
  }

  /** The part that opens the undo group and reads the After Effects version. */
  const BeginUndo: string :=
    "\n" +
    "app.beginUndoGroup(\"Maya2AE\");\n" +
    "\n" +
    "var aeVersion = app.version;\n" +
    "aeVersion = parseFloat(aeVersion.substring(0, aeVersion.indexOf(\"x\")));\n" +
    "\n"

  /** The part that renames the compositions already named `compName`. */
  const RenameOld: string :=
    "//RENAME OLD\n" +
    "for(var index=1; index<=app.project.numItems; index++) { \n" +
    "    var oldComp = app.project.item(index);\n" +
    "    if (oldComp.name == compName)\n" +
    "        {oldComp.name = oldComp.name + \"_old_DELETE\"; }\n" +
    "}\n"

  /** The part that imports `filePath + "/" + compName + ".ma"`. */
  const ImportMa: string :=
    "//IMPORT\n" +
    "app.project.importFile(new ImportOptions(File(filePath+\"/\"+compName+\".ma\")));\n" +
    "\n"

  /** The part that sets frame rate and start of the imported composition and renames its layers and solids. */
  const RenameCurrent: string :=
    "//RENAME CURRENT\n" +
    "for (var index=1; index <=app.project.numItems; index++) {\n" +
    "    var comp = app.project.item(index);\n" +
    "\n" +
    "    if (comp.name == compName) {\n" +
    "        comp.frameRate = fps;\n" +
    "\n" +
    "        if (aeVersion >= 17.1) {\n" +
    "            comp.displayStartFrame = startFrame;\n" +
    "        } else {\n" +
    "            comp.displayStartTime = startFrame/fps + 0.00001;\n" +
    "        }\n" +
    "\n" +
    "        for (var compIndex=1; compIndex<=comp.numLayers; compIndex++) { \n" +
    "            var theLayer = comp.layer(compIndex).name.replace(\"_BakedShape\",\"\");\n" +
    "            var newLayer = theLayer.replace(\"Null_\",\"\");\n" +
    "            comp.layer(compIndex).name=newLayer;\n" +
    "        }\n" +
    "    }\n" +
    "\n" +
    "    if (comp.name==\"Solids\") { \n" +
    "        for (var solidIndex= 1; solidIndex <= comp.numItems; solidIndex ++) {\n" +
    "            var theSolid=comp.item(solidIndex).name.replace(\"_BakedShape\",\"\");\n" +
    "            comp.item(solidIndex).name = theSolid\n" +
    "        }\n" +
    "    }  \n" +
    "}\n" +
    "\n"

  /** The part that closes the undo group. */
  const EndUndo: string :=
    "app.endUndoGroup();\n"

  /** The block that removes the `.ma` and `.jsx` files once imported: the
      two file handles, then the two removals. */
  const DeleteBlock: string := FileHandles + RemoveCalls

  const FileHandles: string :=
    "\n" +
    "var ma = new File(filePath + \"/\" + compName +\".ma\")\n" +
    "var jsx = new File(filePath + \"/\" + compName +\".jsx\")\n" +
    "\n"

  const RemoveCalls: string :=
    "ma.remove()\n" +
    "jsx.remove()\n"

  /** The import part that always follows the header. */
  const ImportBody: string := BeginUndo + RenameOld + ImportMa + RenameCurrent + EndUndo

  /** The four assignments `writeJSX` puts in the header, in this order:
      the file name of `path` without its extension, the directory of
      `path`, the start frame and the frame rate. */
  function JsxFields(path: string, start: int, fps: string): seq<Assignment> {
    JsxHeader(SplitExtRoot(Basename(path)), Dirname(path), IntToDecimal(start), fps)
  }

  /** The four header assignments for given values. */
  function JsxHeader(compName: string, filePath: string, startFrame: string, fps: string): seq<Assignment> {
    [Assignment("compName", compName)] +
    ([Assignment("filePath", filePath)] +
    ([Assignment("startFrame", startFrame)] +
    [Assignment("fps", fps)]))
  }

  /** The whole script `writeJSX(data, deleteAfterImport)` writes to
      `data['path']`. */
  function Script(path: string, start: int, fps: string, deleteAfterImport: bool): string {
    Header(JsxFields(path, start, fps)) + Body(deleteAfterImport)
  }

  /** What follows the header: the import part, then the removal block when
      it is asked for. */
  function Body(deleteAfterImport: bool): string {
    ImportBody + (if deleteAfterImport then DeleteBlock else "")
  }

  /** `writeJSX`: the header is formatted, the import part appended, and
      the removal block appended when it is asked for; the file write is the
      returned text. */
  method WriteJsx(path: string, start: int, fps: string, deleteAfterImport: bool) returns (jsx: string)
    ensures jsx == Script(path, start, fps, deleteAfterImport)
  {
    var header := Header(JsxFields(path, start, fps));
    jsx := header + ImportBody;
    if deleteAfterImport {
      AppendRegroup(header, ImportBody, DeleteBlock);
      jsx := jsx + DeleteBlock;
    } else {
      AppendRegroup(header, ImportBody, "");
    }
  }

  lemma {:induction false} AppendRegroup(h: string, b: string, x: string)
    ensures (h + b) + x == h + (b + x) && h + b + "" == h + b
  {
  }

  // reading a header back

  /** An assignment line read back: `var `, a name up to the first blank,
      ` = "`, and the value up to the closing quote at the end. */
  function ParseAssign(line: string): Option<Assignment> {
    if |line| < 4 || line[..4] != "var " then None else ParseNamed(line[4..])
  }

  /** An assignment read from a line prints back as that line. */
  lemma {:induction false} ParseAssignPrints(line: string)
    ensures ParseAssign(line).Some? ==> AssignLine(ParseAssign(line).value) == line
  {
    if ParseAssign(line).Some? {
      assert line == line[..4] + line[4..];
    }
  }

  /** What follows `var `: the name, then the quoted value. */
  function ParseNamed(body: string): (r: Option<Assignment>)
    ensures r.Some? ==> r.value.name + ValueTail(r.value.value) == body
  {
    var k := TokenLen(body);
    var r := ParseValue(body[..k], body[k..]);
    assert body == body[..k] + body[k..];
    r
  }

  /** What follows the name: ` = "`, the value and the closing quote. */
  function ParseValue(name: string, rest: string): (r: Option<Assignment>)
    ensures r.Some? ==> r.value.name == name && ValueTail(r.value.value) == rest
  {
    if |rest| >= 5 && rest[..4] == " = \"" && rest[|rest| - 1] == '"' then
      var v := rest[4..|rest| - 1];
      assert rest == rest[..4] + v + [rest[|rest| - 1]];
      Some(Assignment(name, v))
    else None
  }

  /** Every line read as an assignment, or nothing when one line is not one. */
  function ParseAll(lines: seq<string>): (r: Option<seq<Assignment>>)
    ensures r.Some? ==> |r.value| == |lines|
  {
    Collect(seq(|lines|, i requires 0 <= i < |lines| => ParseAssign(lines[i])))
  }

  /** All the values, when none is missing. */
  function Collect<T>(opts: seq<Option<T>>): (r: Option<seq<T>>)
    ensures r.Some? ==> |r.value| == |opts|
  {
    if opts == [] then Some([])
    else
      var rest := Collect(opts[1..]);
      if opts[0].Some? && rest.Some? then Some([opts[0].value] + rest.value) else None
  }

  /** The first `n` assignments of a script, read line by line after the
      empty first line. */
  function ReadHeader(text: string, n: nat): Option<seq<Assignment>> {
    var ls := Split(text, '\n');
    if |ls| > n && ls[0] == "" then ParseAll(ls[1..n + 1]) else None
  }

  lemma {:induction false} ParseAssignLine(a: Assignment)
    requires a.name != [] && NoSpace(a.name)
    ensures ParseAssign(AssignLine(a)) == Some(a)
  {
    var line := AssignLine(a);
    var tail := ValueTail(a.value);
    assert line[4..] == a.name + tail;
    ParseNamedOf(a.name, tail);
    ParseValueOf(a.name, a.value);
  }

  /** The name ends at the first blank. */
  lemma {:induction false} ParseNamedOf(name: string, tail: string)
    requires name != [] && NoSpace(name) && tail != [] && tail[0] == ' '
    ensures ParseNamed(name + tail) == ParseValue(name, tail)
  {
    var body := name + tail;
    assert body[|name|] == ' ';
    assert body[..|name|] == name;
    var k := TokenLen(body);
    assert k == |name|;
    assert body[k..] == tail;
  }

  lemma {:induction false} ParseValueOf(name: string, v: string)
    ensures ParseValue(name, ValueTail(v)) == Some(Assignment(name, v))
  {
    var rest := ValueTail(v);
    assert rest[..4] == " = \"";
    assert rest[4..|rest| - 1] == v;
  }

  /** The lines of a header, one per assignment. */
  function LinesOf(asg: seq<Assignment>): (r: seq<string>)
    ensures |r| == |asg| && forall i :: 0 <= i < |asg| ==> r[i] == AssignLine(asg[i])
  {
    if asg == [] then [] else [AssignLine(asg[0])] + LinesOf(asg[1..])
  }

  lemma {:induction false} AssignLineNoBreak(a: Assignment)
    requires NoSpace(a.name) && '\n' !in a.value
    ensures '\n' !in AssignLine(a)
  {
  }

  lemma {:induction false} ReadableTail(asg: seq<Assignment>)
    requires asg != [] && Readable(asg)
    ensures Readable(asg[1..])
  {
    forall i | 0 <= i < |asg| - 1 ensures asg[1..][i] == asg[i + 1] { }
  }

  /** The header lines split back into one line per assignment. */
  lemma {:induction false} LinesSplit(asg: seq<Assignment>, rest: string)
    requires Readable(asg)
    ensures Split(Lines(asg) + rest, '\n') == LinesOf(asg) + Split(rest, '\n')
    decreases |asg|
  {
    if asg != [] {
      var line := AssignLine(asg[0]);
      AssignLineNoBreak(asg[0]);
      ReadableTail(asg);
      var y := Lines(asg[1..]) + rest;
      LinesSplit(asg[1..], rest);
      assert Lines(asg) + rest == line + ['\n'] + y;
      SplitAppend(line, y, '\n');
      SplitNone(line, '\n');
      calc {
        Split(Lines(asg) + rest, '\n');
        Split(line, '\n') + Split(y, '\n');
        [line] + (LinesOf(asg[1..]) + Split(rest, '\n'));
        ([line] + LinesOf(asg[1..])) + Split(rest, '\n');
      }
    } else {
      assert Lines(asg) + rest == rest;
    }
  }

  lemma {:induction false} ParseAllLines(asg: seq<Assignment>)
    requires Readable(asg)
    ensures ParseAll(LinesOf(asg)) == Some(asg)
  {
    var ls := LinesOf(asg);
    forall i | 0 <= i < |ls| ensures ParseAssign(ls[i]) == Some(asg[i]) {
      ParseAssignLine(asg[i]);
    }
    ParseAllOf(ls, asg);
  }

  /** Lines that each read back as their assignment read back as the list. */
  lemma {:induction false} ParseAllOf(lines: seq<string>, asg: seq<Assignment>)
    requires |lines| == |asg| && forall i :: 0 <= i < |lines| ==> ParseAssign(lines[i]) == Some(asg[i])
    ensures ParseAll(lines) == Some(asg)
  {
    var opts := seq(|lines|, i requires 0 <= i < |lines| => ParseAssign(lines[i]));
    CollectAll(opts, asg);
  }

  lemma {:induction false} CollectAll<T>(opts: seq<Option<T>>, xs: seq<T>)
    requires |opts| == |xs| && forall i :: 0 <= i < |opts| ==> opts[i] == Some(xs[i])
    ensures Collect(opts) == Some(xs)
    decreases |opts|
  {
    if opts != [] {
      CollectAll(opts[1..], xs[1..]);
      assert xs == [xs[0]] + xs[1..];
    }
  }

  /** The lines of a header: the empty first line, then one line per
      assignment, then the lines of what follows it. */
  lemma {:induction false} HeaderSplit(asg: seq<Assignment>, rest: string)
    requires Readable(asg)
    ensures Split(Header(asg) + rest, '\n') == [""] + (LinesOf(asg) + Split(rest, '\n'))
  {
    var body := Lines(asg) + rest;
    assert Header(asg) + rest == "" + ['\n'] + body;
    SplitAppend("", body, '\n');
    LinesSplit(asg, rest);
  }

  /** Whatever follows it, a header reads back as the assignments it was
      written from. */
  lemma {:induction false} HeaderRoundTrip(asg: seq<Assignment>, rest: string)
    requires Readable(asg)
    ensures ReadHeader(Header(asg) + rest, |asg|) == Some(asg)
  {
    HeaderSplit(asg, rest);
    var all := Split(Header(asg) + rest, '\n');
    assert all[1..|asg| + 1] == LinesOf(asg);
    ParseAllLines(asg);
  }

  /** The script's header assigns, in order, `compName` = the base name of
      the path without its extension, `filePath` = its directory,
      `startFrame` = the start frame and `fps` = the frame rate, each value
      quoted as it is. */
  lemma {:induction false} ScriptHeader(path: string, start: int, fps: string, deleteAfterImport: bool)
    requires '\n' !in path && '\n' !in fps
    ensures ReadHeader(Script(path, start, fps, deleteAfterImport), 4) == Some(JsxFields(path, start, fps))
  {
    FieldsReadable(path, start, fps);
    HeaderRoundTrip(JsxFields(path, start, fps), Body(deleteAfterImport));
  }

  lemma {:induction false} FieldsReadable(path: string, start: int, fps: string)
    requires '\n' !in path && '\n' !in fps
    ensures Readable(JsxFields(path, start, fps))
  {
    IntRoundTrip(start);
    var base := Basename(path);
    var root := SplitExtRoot(base);
    var dir := Dirname(path);
    assert '\n' !in base by {
      assert base == path[|path| - |base|..];
    }
    assert '\n' !in root by {
      assert root == base[..|root|];
    }
    assert '\n' !in dir by {
      assert dir == path[..|dir|];
    }
    HeaderReadable(root, dir, IntToDecimal(start), fps);
  }

  lemma {:induction false} HeaderReadable(compName: string, filePath: string, startFrame: string, fps: string)
    requires '\n' !in compName && '\n' !in filePath && '\n' !in startFrame && '\n' !in fps
    ensures Readable(JsxHeader(compName, filePath, startFrame, fps))
  {
    var h := JsxHeader(compName, filePath, startFrame, fps);
    assert h[0].name == "compName" && h[1].name == "filePath" && h[2].name == "startFrame" && h[3].name == "fps";
    assert NoSpace("compName") && NoSpace("filePath") && NoSpace("startFrame") && NoSpace("fps");
  }

  /** `s.endswith(suffix)`, compared from the last character backwards. */
  predicate EndsWith(s: string, suffix: string)
    decreases |suffix|
  {
    suffix == [] ||
    (s != [] && s[|s| - 1] == suffix[|suffix| - 1] && EndsWith(s[..|s| - 1], suffix[..|suffix| - 1]))
  }

  lemma {:induction false} EndsWithAppended(p: string, suffix: string)
    ensures EndsWith(p + suffix, suffix)
    decreases |suffix|
  {
    if suffix != [] {
      var s := p + suffix;
      assert s[..|s| - 1] == p + suffix[..|suffix| - 1];
      EndsWithAppended(p, suffix[..|suffix| - 1]);
    }
  }

  lemma {:induction false} EndsWithPenultimate(s: string, suffix: string)
    requires EndsWith(s, suffix) && |suffix| >= 2
    ensures |s| >= 2 && s[|s| - 2] == suffix[|suffix| - 2]
  {
    var s' := s[..|s| - 1];
    var suffix' := suffix[..|suffix| - 1];
    assert EndsWith(s', suffix');
    assert s'[|s'| - 1] == suffix'[|suffix'| - 1];
  }

  /** A text that ends in `front + tail`, or in that and then `block`,
      ends in `block` only in the second case, when the last but one
      characters of `tail` and of `block` differ. */
  lemma {:induction false} EndsWithBlockIff(h: string, front: string, tail: string, blockFront: string,
                                            blockTail: string, appended: bool)
    requires |tail| >= 2 && |blockTail| >= 2 && tail[|tail| - 2] != blockTail[|blockTail| - 2]
    ensures var block := blockFront + blockTail;
      EndsWith(h + ((front + tail) + (if appended then block else "")), block) <==> appended
  {
    var block := blockFront + blockTail;
    if appended {
      assert h + ((front + tail) + block) == (h + (front + tail)) + block;
      EndsWithAppended(h + (front + tail), block);
    } else {
      var t := h + ((front + tail) + "");
      assert t == (h + front) + tail;
      if EndsWith(t, block) {
        EndsWithPenultimate(t, block);
      }
    }
  }

  /** Whatever header precedes it (`Script` is `Header(...) + Body(...)`),
      the script ends with the block that removes the imported files exactly
      when `deleteAfterImport` is set. */
  lemma {:induction false} BodyDeletes(h: string, deleteAfterImport: bool)
    ensures EndsWith(h + Body(deleteAfterImport), DeleteBlock) <==> deleteAfterImport
  {
    assert EndUndo[|EndUndo| - 2] == ';';
    assert RemoveCalls[|RemoveCalls| - 2] == ')';
    EndsWithBlockIff(h, BeginUndo + RenameOld + ImportMa + RenameCurrent, EndUndo, FileHandles, RemoveCalls,
                     deleteAfterImport);
  }

  // ---------------------------------------------------------------------
  // bakeCamLoc

  /** The transform channels `bakeCamLoc` can key. */
  datatype Channel = TX | TY | TZ | RX | RY | RZ | SX | SY | SZ

  /** The attribute name of a channel. */
  function AttrName(c: Channel): string {
    match c
    case TX => "tx" case TY => "ty" case TZ => "tz"
    case RX => "rx" case RY => "ry" case RZ => "rz"
    case SX => "sx" case SY => "sy" case SZ => "sz"
  }

  /** The place of a channel in the order the channels are added:
      translate, rotate, scale, and x, y, z within each. */
  function Rank(c: Channel): nat {
    match c
    case TX => 0 case TY => 1 case TZ => 2
    case RX => 3 case RY => 4 case RZ => 5
    case SX => 6 case SY => 7 case SZ => 8
  }

  const TranslateChannels: seq<Channel> := [TX, TY, TZ]
  const RotateChannels: seq<Channel> := [RX, RY, RZ]
  const ScaleChannels: seq<Channel> := [SX, SY, SZ]

  /** Whether a channel belongs to a group that is asked for. */
  predicate ChannelOn(c: Channel, bakeTranslate: bool, bakeRotate: bool, bakeScale: bool) {
    if Rank(c) < 3 then bakeTranslate else if Rank(c) < 6 then bakeRotate else bakeScale
  }

  /** The channels that are keyed: exactly those of the groups asked for,
      three per group, in the order translate, rotate, scale and x, y, z. */
  function Channels(bakeTranslate: bool, bakeRotate: bool, bakeScale: bool): (r: seq<Channel>)
    ensures |r| == (if bakeTranslate then 3 else 0) + (if bakeRotate then 3 else 0) + (if bakeScale then 3 else 0)
    ensures forall c :: c in r <==> ChannelOn(c, bakeTranslate, bakeRotate, bakeScale)
    ensures forall i, j :: 0 <= i < j < |r| ==> Rank(r[i]) < Rank(r[j])
  {
    (if bakeTranslate then TranslateChannels else []) + (if bakeRotate then RotateChannels else []) +
    (if bakeScale then ScaleChannels else [])
  }

  /** Different channels have different attribute names. */
  lemma {:induction false} AttrNameInjective(c: Channel, d: Channel)
    requires AttrName(c) == AttrName(d)
    ensures c == d
  {
    assert AttrName(c)[0] == AttrName(d)[0] && AttrName(c)[1] == AttrName(d)[1];
  }

  /** The name an object is baked under: with `fullpathname`, the full DAG
      path with `|` turned into `_` and its first character dropped;
      otherwise the last `|`-separated segment. */
  function ObjName(obj: string, fullPathName: bool): (r: string)
    ensures '|' !in r
    ensures fullPathName ==>
      && |r| == (if obj == [] then 0 else |obj| - 1)
      && forall i :: 0 <= i < |r| ==> r[i] == if obj[i + 1] == '|' then '_' else obj[i + 1]
    ensures !fullPathName ==> r == obj[LastIndex(obj, '|') + 1..]
  {
    if fullPathName then
      ReplaceCharAt(obj, '|', '_');
      var flat := ReplaceAll(obj, "|", "_");
      if flat == [] then [] else flat[1..]
    else
      LastSegment(obj, '|');
      var parts := Split(obj, '|');
      parts[|parts| - 1]
  }

  /** The helper locator constrained to the object. */
  function DummyName(objName: string): string {
    objName + "_Temp"
  }

  /** The baked copy: a camera for a camera, a locator otherwise. */
  function BakedName(objName: string, isCamera: bool): string {
    (if isCamera then "Cam_" else "Null_") + objName + "_Baked"
  }

  /** No helper locator is ever named like a baked copy. */
  lemma {:induction false} DummyNotBaked(a: string, b: string, isCamera: bool)
    ensures DummyName(a) != BakedName(b, isCamera)
  {
    var d, k := DummyName(a), BakedName(b, isCamera);
    assert d[|d| - 1] == 'p';
    assert k[|k| - 1] == 'd';
  }

  /** The baked name gives back both the object name and whether the object
      is a camera. */
  lemma {:induction false} BakedNameInjective(a: string, aCamera: bool, b: string, bCamera: bool)
    requires BakedName(a, aCamera) == BakedName(b, bCamera)
    ensures a == b && aCamera == bCamera
  {
    var x, y := BakedName(a, aCamera), BakedName(b, bCamera);
    assert x[0] == (if aCamera then 'C' else 'N');
    assert y[0] == (if bCamera then 'C' else 'N');
    var p := if aCamera then "Cam_" else "Null_";
    assert x == p + a + "_Baked" && y == p + b + "_Baked";
    assert a == x[|p|..|x| - 6];
    assert b == y[|p|..|y| - 6];
  }

  /** One key `setKeyframe` writes: node, attribute, frame and value. */
  datatype Key = Key(node: string, attr: string, frame: int, value: real)

  /** The helper locator and the baked copy made for one object. */
  function NamePair(obj: string, fullPathName: bool, isCamera: string -> bool): (string, string) {
    var objName := ObjName(obj, fullPathName);
    (DummyName(objName), BakedName(objName, isCamera(obj)))
  }

  /** `transformsToBake`: a pair per object, in the order of the objects. */
  function NamePairs(objects: seq<string>, fullPathName: bool, isCamera: string -> bool): seq<(string, string)>
  {
    seq(|objects|, i requires 0 <= i < |objects| => NamePair(objects[i], fullPathName, isCamera))
  }

  /** `n` rows of `width` entries hold `n * width` entries. */
  function Rows(n: nat, width: nat): nat {
    if n == 0 then 0 else Rows(n - 1, width) + width
  }

  lemma {:induction false} RowsProduct(n: nat, width: nat)
    ensures Rows(n, width) == n * width
  {
    if n > 0 {
      RowsProduct(n - 1, width);
    }
  }

  /** Entry `j` of row `i` when rows of `width` entries are laid end to end. */
  function Slot(i: nat, j: nat, width: nat): nat {
    Rows(i, width) + j
  }

  lemma {:induction false} RowsMono(i: nat, n: nat, width: nat)
    requires i < n
    ensures Rows(i, width) + width <= Rows(n, width)
    decreases n - i
  {
    if i + 1 < n {
      RowsMono(i + 1, n, width);
    }
  }

  /** The keys one baked copy gets on one frame: each channel in turn takes
      the value the helper locator has on that frame. */
  function ObjectKeys(pair: (string, string), channels: seq<Channel>, frame: int,
                      sample: (string, Channel, int) -> real): (r: seq<Key>)
    ensures |r| == |channels|
    decreases |channels|
  {
    if channels == [] then []
    else
      var c := channels[|channels| - 1];
      ObjectKeys(pair, channels[..|channels| - 1], frame, sample) + [Key(pair.1, AttrName(c), frame, sample(pair.0, c, frame))]
  }

  /** The keys of one frame: every baked copy in turn. */
  function FrameKeys(pairs: seq<(string, string)>, channels: seq<Channel>, frame: int,
                     sample: (string, Channel, int) -> real): (r: seq<Key>)
    ensures |r| == Rows(|pairs|, |channels|)
    decreases |pairs|
  {
    if pairs == [] then []
    else FrameKeys(pairs[..|pairs| - 1], channels, frame, sample) + ObjectKeys(pairs[|pairs| - 1], channels, frame, sample)
  }

  /** All keys, frame after frame. */
  function BakeKeys(frames: seq<int>, pairs: seq<(string, string)>, channels: seq<Channel>,
                    sample: (string, Channel, int) -> real): (r: seq<Key>)
    ensures |r| == Rows(|frames|, Rows(|pairs|, |channels|))
    decreases |frames|
  {
    if frames == [] then []
    else BakeKeys(frames[..|frames| - 1], pairs, channels, sample) + FrameKeys(pairs, channels, frames[|frames| - 1], sample)
  }

  /** The key a baked copy gets for a channel on a frame: the helper
      locator's value of that channel on that frame. */
  function KeyFor(pair: (string, string), c: Channel, frame: int, sample: (string, Channel, int) -> real): Key {
    Key(pair.1, AttrName(c), frame, sample(pair.0, c, frame))
  }

  /** One baked copy on one frame: one key per channel, in channel order. */
  lemma {:induction false} ObjectKeysLayout(pair: (string, string), channels: seq<Channel>, frame: int,
                                            sample: (string, Channel, int) -> real)
    ensures forall k :: 0 <= k < |channels| ==>
      ObjectKeys(pair, channels, frame, sample)[k] == KeyFor(pair, channels[k], frame, sample)
    decreases |channels|
  {
    if channels != [] {
      ObjectKeysLayout(pair, channels[..|channels| - 1], frame, sample);
    }
  }

  /** One frame: the keys of the first copy, then of the second, and so on. */
  lemma {:induction false} FrameKeysLayout(pairs: seq<(string, string)>, channels: seq<Channel>, frame: int,
                                           sample: (string, Channel, int) -> real)
    ensures forall p, k :: 0 <= p < |pairs| && 0 <= k < |channels| ==>
      && Slot(p, k, |channels|) < Rows(|pairs|, |channels|)
      && FrameKeys(pairs, channels, frame, sample)[Slot(p, k, |channels|)] == KeyFor(pairs[p], channels[k], frame, sample)
    decreases |pairs|
  {
    if pairs != [] {
      var n := |pairs| - 1;
      var init := pairs[..n];
      FrameKeysLayout(init, channels, frame, sample);
      ObjectKeysLayout(pairs[n], channels, frame, sample);
      var r := FrameKeys(pairs, channels, frame, sample);
      forall p, k | 0 <= p < |pairs| && 0 <= k < |channels|
        ensures Slot(p, k, |channels|) < Rows(|pairs|, |channels|)
        ensures r[Slot(p, k, |channels|)] == KeyFor(pairs[p], channels[k], frame, sample)
      {
        if p < n {
          RowsMono(p, n, |channels|);
          assert init[p] == pairs[p];
        }
      }
    }
  }

  /** Frame `f`'s keys are the `f`-th row of all keys. */
  lemma {:induction false} BakeKeysRow(frames: seq<int>, pairs: seq<(string, string)>, channels: seq<Channel>,
                                       sample: (string, Channel, int) -> real, f: nat, j: nat)
    requires f < |frames| && j < Rows(|pairs|, |channels|)
    ensures Slot(f, j, Rows(|pairs|, |channels|)) < |BakeKeys(frames, pairs, channels, sample)|
    ensures BakeKeys(frames, pairs, channels, sample)[Slot(f, j, Rows(|pairs|, |channels|))] ==
      FrameKeys(pairs, channels, frames[f], sample)[j]
    decreases |frames|
  {
    var n := |frames| - 1;
    var w := Rows(|pairs|, |channels|);
    var init := frames[..n];
    var front := BakeKeys(init, pairs, channels, sample);
    var row := FrameKeys(pairs, channels, frames[n], sample);
    assert BakeKeys(frames, pairs, channels, sample) == front + row;
    if f < n {
      BakeKeysRow(init, pairs, channels, sample, f, j);
      RowsMono(f, n, w);
      assert init[f] == frames[f];
    } else {
      assert Slot(f, j, w) == |front| + j;
    }
  }

  /** The key of frame `f`, copy `p` and channel `k`, and where it is. */
  lemma {:induction false} BakeKeyAt(frames: seq<int>, pairs: seq<(string, string)>, channels: seq<Channel>,
                                     sample: (string, Channel, int) -> real, f: nat, p: nat, k: nat)
    requires f < |frames| && p < |pairs| && k < |channels|
    ensures Slot(f, Slot(p, k, |channels|), Rows(|pairs|, |channels|)) < |BakeKeys(frames, pairs, channels, sample)|
    ensures BakeKeys(frames, pairs, channels, sample)[Slot(f, Slot(p, k, |channels|), Rows(|pairs|, |channels|))] ==
      KeyFor(pairs[p], channels[k], frames[f], sample)
  {
    FrameKeysLayout(pairs, channels, frames[f], sample);
    BakeKeysRow(frames, pairs, channels, sample, f, Slot(p, k, |channels|));
  }

  /** The key of frame `f`, copy `p` and channel `k` sits at its slot. */
  predicate KeyPlaced(frames: seq<int>, pairs: seq<(string, string)>, channels: seq<Channel>,
                      sample: (string, Channel, int) -> real, f: nat, p: nat, k: nat)
    requires f < |frames| && p < |pairs| && k < |channels|
  {
    && Slot(f, Slot(p, k, |channels|), Rows(|pairs|, |channels|)) < |BakeKeys(frames, pairs, channels, sample)|
    && BakeKeys(frames, pairs, channels, sample)[Slot(f, Slot(p, k, |channels|), Rows(|pairs|, |channels|))] ==
      KeyFor(pairs[p], channels[k], frames[f], sample)
  }

  /** All keys: frame by frame, within a frame copy by copy, within a copy
      channel by channel, each the helper locator's value on that frame;
      there are no others. */
  lemma {:induction false} BakeKeysLayout(frames: seq<int>, pairs: seq<(string, string)>, channels: seq<Channel>,
                                          sample: (string, Channel, int) -> real)
    ensures forall f: nat, p: nat, k: nat :: f < |frames| && p < |pairs| && k < |channels| ==>
      KeyPlaced(frames, pairs, channels, sample, f, p, k)
  {
    forall f: nat, p: nat, k: nat | f < |frames| && p < |pairs| && k < |channels|
      ensures KeyPlaced(frames, pairs, channels, sample, f, p, k)
    {
      BakeKeyAt(frames, pairs, channels, sample, f, p, k);
    }
  }

  /** Keys are written frame after frame: for increasing frames, a key
      never comes before one of an earlier frame. */
  lemma {:induction false} BakeKeysFrameOrder(frames: seq<int>, pairs: seq<(string, string)>, channels: seq<Channel>,
                                              sample: (string, Channel, int) -> real)
    requires forall i, j :: 0 <= i < j < |frames| ==> frames[i] < frames[j]
    ensures forall i, j :: 0 <= i < j < |BakeKeys(frames, pairs, channels, sample)| ==>
      BakeKeys(frames, pairs, channels, sample)[i].frame <= BakeKeys(frames, pairs, channels, sample)[j].frame
    decreases |frames|
  {
    if frames != [] {
      var init := frames[..|frames| - 1];
      var last := frames[|frames| - 1];
      BakeKeysFrameOrder(init, pairs, channels, sample);
      BakeKeysFrames(init, pairs, channels, sample);
      FrameKeysFrame(pairs, channels, last, sample);
      var front := BakeKeys(init, pairs, channels, sample);
      var row := FrameKeys(pairs, channels, last, sample);
      var keys := front + row;
      assert BakeKeys(frames, pairs, channels, sample) == keys;
      forall i | 0 <= i < |front| ensures front[i].frame < last {
        assert front[i] in front;
        var m :| 0 <= m < |init| && init[m] == front[i].frame;
        assert frames[m] == init[m];
      }
      forall i, j | 0 <= i < j < |keys| ensures keys[i].frame <= keys[j].frame {
        if j < |front| {
          assert keys[i] == front[i] && keys[j] == front[j];
        } else if i < |front| {
          assert keys[i] == front[i] && keys[j] == row[j - |front|] && row[j - |front|] in row;
        } else {
          assert keys[i] == row[i - |front|] && keys[j] == row[j - |front|];
          assert row[i - |front|] in row && row[j - |front|] in row;
        }
      }
    }
  }

  lemma {:induction false} ObjectKeysFrame(pair: (string, string), channels: seq<Channel>, frame: int,
                                           sample: (string, Channel, int) -> real)
    ensures forall k :: k in ObjectKeys(pair, channels, frame, sample) ==> k.frame == frame
    decreases |channels|
  {
    if channels != [] {
      ObjectKeysFrame(pair, channels[..|channels| - 1], frame, sample);
    }
  }

  lemma {:induction false} FrameKeysFrame(pairs: seq<(string, string)>, channels: seq<Channel>, frame: int,
                                          sample: (string, Channel, int) -> real)
    ensures forall k :: k in FrameKeys(pairs, channels, frame, sample) ==> k.frame == frame
    decreases |pairs|
  {
    if pairs != [] {
      FrameKeysFrame(pairs[..|pairs| - 1], channels, frame, sample);
      ObjectKeysFrame(pairs[|pairs| - 1], channels, frame, sample);
    }
  }

  lemma {:induction false} BakeKeysFrames(frames: seq<int>, pairs: seq<(string, string)>, channels: seq<Channel>,
                                          sample: (string, Channel, int) -> real)
    ensures forall k :: k in BakeKeys(frames, pairs, channels, sample) ==> k.frame in frames
    decreases |frames|
  {
    if frames != [] {
      var init := frames[..|frames| - 1];
      BakeKeysFrames(init, pairs, channels, sample);
      FrameKeysFrame(pairs, channels, frames[|frames| - 1], sample);
      assert forall f :: f in init ==> f in frames;
    }
  }

  /** `bakeCamLoc`'s object loop: for each object, in order, the names of
      the helper locator and of the baked copy made for it. */
  method PrepareObjects(objects: seq<string>, fullPathName: bool, isCamera: string -> bool)
    returns (transformsToBake: seq<(string, string)>)
    ensures transformsToBake == NamePairs(objects, fullPathName, isCamera)
  {
    transformsToBake := [];
    for i := 0 to |objects|
      invariant |transformsToBake| == i
      invariant forall j :: 0 <= j < i ==> transformsToBake[j] == NamePair(objects[j], fullPathName, isCamera)
    {
      var objName := ObjName(objects[i], fullPathName);
      var dummyName := DummyName(objName);
      var bakedName := BakedName(objName, isCamera(objects[i]));
      transformsToBake := transformsToBake + [(dummyName, bakedName)];
    }
  }

  /** The body of `bakeCamLoc`'s frame loop: every baked copy in turn gets
      a key for every channel, read from its helper locator. */
  method KeyFrame(transformsToBake: seq<(string, string)>, bakeTransform: seq<Channel>, frame: int,
                  sample: (string, Channel, int) -> real)
    returns (keys: seq<Key>)
    ensures keys == FrameKeys(transformsToBake, bakeTransform, frame, sample)
  {
    keys := [];
    for p := 0 to |transformsToBake|
      invariant keys == FrameKeys(transformsToBake[..p], bakeTransform, frame, sample)
    {
      var (dummy, baked) := transformsToBake[p];
      ghost var before := keys;
      for c := 0 to |bakeTransform|
        invariant keys == before + ObjectKeys(transformsToBake[p], bakeTransform[..c], frame, sample)
      {
        var attr := bakeTransform[c];
        var value := sample(dummy, attr, frame);
        keys := keys + [Key(baked, AttrName(attr), frame, value)];
        assert bakeTransform[..c + 1][..c] == bakeTransform[..c];
      }
      assert bakeTransform[..|bakeTransform|] == bakeTransform;
      assert transformsToBake[..p + 1][..p] == transformsToBake[..p];
    }
    assert transformsToBake[..|transformsToBake|] == transformsToBake;
  }

  /** `bakeCamLoc`: a helper locator and a baked copy per object, then, frame
      after frame, a key on every baked copy for every channel asked for,
      holding the value its helper locator has on that frame. `isCamera`
      tells which objects have a camera shape and `sample` what a helper
      locator's channel reads on a frame. Returns the baked objects and the
      keys written, in the order they are written. */
  method BakeCamLoc(objects: seq<string>, fullPathName: bool, startFrame: int, endFrame: int,
                    bakeTranslate: bool, bakeRotate: bool, bakeScale: bool,
                    isCamera: string -> bool, sample: (string, Channel, int) -> real)
    returns (bakedObjects: seq<string>, keys: seq<Key>)
    ensures |bakedObjects| == |objects|
    ensures forall i :: 0 <= i < |objects| ==>
      bakedObjects[i] == BakedName(ObjName(objects[i], fullPathName), isCamera(objects[i]))
    ensures keys == BakeKeys(Range(startFrame, endFrame + 1), NamePairs(objects, fullPathName, isCamera),
                             Channels(bakeTranslate, bakeRotate, bakeScale), sample)
  {
    var frames := Range(startFrame, endFrame + 1);
    var bakeTransform := Channels(bakeTranslate, bakeRotate, bakeScale);

    var transformsToBake := PrepareObjects(objects, fullPathName, isCamera);

    keys := [];
    for f := 0 to |frames|
      invariant keys == BakeKeys(frames[..f], transformsToBake, bakeTransform, sample)
    {
      var frameKeys := KeyFrame(transformsToBake, bakeTransform, frames[f], sample);
      keys := keys + frameKeys;
      assert frames[..f + 1][..f] == frames[..f];
    }
    assert frames[..|frames|] == frames;
    bakedObjects := seq(|transformsToBake|, i requires 0 <= i < |transformsToBake| => transformsToBake[i].1);
  }

  // ---------------------------------------------------------------------
  // export2ae

  /** The message `export2ae` shows when it stops early. */
  datatype Refusal = EmptyPath | EmptyCompName | NoObject | NoCamera | NotADirectory

  function Message(r: Refusal): string {
    match r
    case EmptyPath => "Export Path is empty"
    case EmptyCompName => "Export Comp Name is empty"
    case NoObject => "No Object to Export!"
    case NoCamera => "No Camera to Export!"
    case NotADirectory => "Export Path not exists"
  }

  datatype ExportOutcome = Refused(why: Refusal) | Exporting(maPath: string, jsxPath: string)

  /** `text.replace('\\', '/')`. */
  function Slashed(text: string): (r: string)
    ensures |r| == |text| && '\\' !in r
    ensures forall i :: 0 <= i < |text| ==> r[i] == if text[i] == '\\' then '/' else text[i]
  {
    ReplaceCharAt(text, '\\', '/');
    ReplaceAll(text, ['\\'], ['/'])
  }

  /** `export2ae`, up to writing its files: the two fields with back slashes
      turned into slashes, the objects in the export list, which of them are
      cameras, and what the export directory is. A missing directory is
      created; one that exists and is no directory stops the export. */
  function Export2AE(pathText: string, compText: string, objects: seq<string>, isCamera: string -> bool,
                     dir: DirState): (r: ExportOutcome)
    ensures r == Refused(EmptyPath) <==> pathText == ""
    ensures r == Refused(EmptyCompName) <==> pathText != "" && compText == ""
    ensures r == Refused(NoObject) <==> pathText != "" && compText != "" && objects == []
    ensures r == Refused(NoCamera) <==>
      pathText != "" && compText != "" && objects != [] && forall o :: o in objects ==> !isCamera(o)
    ensures r == Refused(NotADirectory) <==>
      pathText != "" && compText != "" && (exists o :: o in objects && isCamera(o)) && dir == NotDirectory
    ensures r.Exporting? ==>
      && r.maPath == Slashed(pathText) + "/" + Slashed(compText) + ".ma"
      && r.jsxPath == Slashed(pathText) + "/" + Slashed(compText) + ".jsx"
  {
    var exportDir := Slashed(pathText);
    var compName := Slashed(compText);
    if exportDir == "" then Refused(EmptyPath)
    else if compName == "" then Refused(EmptyCompName)
    else if objects == [] then Refused(NoObject)
    else if forall o :: o in objects ==> !isCamera(o) then Refused(NoCamera)
    else if dir == NotDirectory then Refused(NotADirectory)
    else Exporting(exportDir + "/" + compName + ".ma", exportDir + "/" + compName + ".jsx")
  }

  /** The `.jsx` file named after a directory and a comp name gives back
      the `.ma` file beside it, read the way the script reads its header. */
  lemma {:induction false} SiblingFiles(exportDir: string, compName: string)
    requires exportDir != [] && exportDir[|exportDir| - 1] != '/' && '/' !in compName
    requires exists k :: 0 <= k < |compName| && compName[k] != '.'
    ensures var jsx := exportDir + "/" + compName + ".jsx";
      Dirname(jsx) + "/" + SplitExtRoot(Basename(jsx)) + ".ma" == exportDir + "/" + compName + ".ma"
  {
    var file := compName + ".jsx";
    assert file == compName + "." + "jsx";
    var jsx := exportDir + "/" + file;
    assert jsx == exportDir + "/" + compName + ".jsx";
    DirnameBasename(exportDir, file);
    SplitExtAppended(compName, "jsx");
    assert SplitExtRoot(Basename(jsx)) == compName;
  }

  /** The script written for an export imports the `.ma` file written beside
      it: its `filePath + "/" + compName + ".ma"` is the `.ma` path, for a
      directory that does not end in a slash and a comp name that is a plain
      file name. */
  lemma {:induction false} ScriptImportsExportedMa(pathText: string, compText: string, objects: seq<string>,
                                                   isCamera: string -> bool, dir: DirState, maPath: string,
                                                   jsxPath: string, start: int, fps: string)
    requires Export2AE(pathText, compText, objects, isCamera, dir) == Exporting(maPath, jsxPath)
    requires pathText[|pathText| - 1] !in "/\\" && '/' !in compText && '\\' !in compText
    requires exists k :: 0 <= k < |compText| && compText[k] != '.'
    ensures JsxFields(jsxPath, start, fps)[1].value + "/" + JsxFields(jsxPath, start, fps)[0].value + ".ma" == maPath
  {
    var exportDir := Slashed(pathText);
    assert compText == Slashed(compText);
    assert exportDir[|exportDir| - 1] != '/';
    SiblingFiles(exportDir, compText);
  }
}
