# MayaScripts core, modelled in Dafny

MayaScripts is a set of Python scripts that drive Autodesk Maya. This project
models the deterministic parts of three of them and proves properties of the
models. Maya itself is reduced to oracles: given maps and functions answer its
queries, and recorded writes stand in for its commands.

- **Reference edits** (`RenderExport/ExportImportReferenceEdits.py`).
  - `get_refedits` collects the edit strings of a scene's child references into a module-level list, without duplicates (`RefEdits.RefEditLog`).
  - `string_to_dict` reads named fields out of a MEL command through a `{name}` pattern that becomes a regular expression of greedy groups (module `Template`).
  - `export_refedits` visits the sorted edits and takes each edit's first token as its tag. It creates one XML child per tag, strips `-flag` tokens, reads the command's fields and keeps or drops the edit. The decision uses the node types the scene reports and two exclusion lists (`RefEdits.Export`, `RefEdits.ExportRefEdits`, `RefEdits.EditTree`).
  - `import_refedits` hands the stored commands of the chosen tags to `mel.eval` (`RefEdits.Import`, `RefEdits.ImportRefEdits`).
- **Maya to After Effects** (`maya2ae.py`).
  - `writeJSX` assembles an After Effects script: a header of four assignments, the fixed import part and an optional file-removal block (`Maya2AE.WriteJsx`).
  - `bakeCamLoc` chooses the channels to bake, the frame range and the names of the helper and baked nodes. It then keys every channel of every baked node on every frame (`Maya2AE.BakeCamLoc`).
  - `export2ae` checks its inputs in order and builds the `.ma` and `.jsx` paths (`Maya2AE.Export2AE`).
- **nParticle instance bake** (`nparticleToMesh.py`).
  - `bakeNParticles` walks every frame and every particle. It picks the instanced object through the object-index attribute, with the index clamped as the code is written (see "## Findings"), and names the instance after the particle. It reuses a node with that name or duplicates the object, and keys ten channels. An instancer with an aim direction attribute raises at its first particle.
  - It then parents the instances under a group.
  - A cleanup pass sets zero keys next to the keyed frames (class `ParticleBake.Scene` and the functions that specify it).

Shared helpers are in `Text` (Python string operations), `Paths` (posixpath) and `Lists`.

The loops of the source are methods proved against specification functions:
`RefEdits.BuildTree`, `RefEdits.RefEditLog.GetRefEdits`, `RefEdits.ImportRefEdits`,
`Maya2AE.WriteJsx`, `Maya2AE.BakeCamLoc` and the methods of `ParticleBake.Scene`.
Lemmas then state what the source promises about those functions.

## Model

| member | source | states |
|---|---|---|
| Template.ParsePattern | RenderExport/ExportImportReferenceEdits.py:8-9 | defines how a pattern string is read: a `{` closed by the first later `}` on the same line, with at least one character between them, is one placeholder; every other character is one literal |
| Template.MatchAt | RenderExport/ExportImportReferenceEdits.py:10 | defines the backtracking match at one position: each literal must be present, each group tries its longest run of non-newline characters first; a match ends inside the text and has one capture per placeholder |
| Template.TryLengths | RenderExport/ExportImportReferenceEdits.py:10 | defines how a greedy group gives back one character at a time, down to one; a match found has one capture more than the rest of the pattern |
| Template.Search | RenderExport/ExportImportReferenceEdits.py:10 | defines `re.search` as the search for a match starting at positions 0, 1, … in turn |
| Template.MatchAtSound | RenderExport/ExportImportReferenceEdits.py:8-10 | every capture of a match is non-empty and free of line breaks, and the pattern filled with the captures is exactly the matched text |
| Template.TryLengthsSound | RenderExport/ExportImportReferenceEdits.py:8 | a greedy `.+` group takes a non-empty run of non-newline characters, and the rest of the pattern matches what follows |
| Template.MatchAtComplete | RenderExport/ExportImportReferenceEdits.py:8-10 | if the text holds the pattern filled with valid captures at a position, the matcher succeeds there |
| Template.GreedyStopsAt | RenderExport/ExportImportReferenceEdits.py:8 | the first group takes the longest text after which the rest of the pattern still matches |
| Template.SearchFrom | RenderExport/ExportImportReferenceEdits.py:10 | the match found is the leftmost one: the pattern matches at the reported start and at no earlier position |
| Template.SearchNoneIff | RenderExport/ExportImportReferenceEdits.py:10 | whenever some valid filling of the pattern occurs in the text, the search finds a match, so it fails only when there is no such occurrence |
| Template.ZipMap | RenderExport/ExportImportReferenceEdits.py:11 | the keys of `dict(zip(keys, values))` are exactly the names, and with distinct names each name maps to its own value |
| Template.StringToDict | RenderExport/ExportImportReferenceEdits.py:7-12 | the keys are exactly the placeholder names; without a match every value is `''`; on a match each name maps to its group's capture, which is non-empty and newline-free, and the filled pattern is the matched substring of the text |
| Template.ParseHole | RenderExport/ExportImportReferenceEdits.py:8-9 | `{name}` is read as one placeholder called `name`, followed by the reading of the rest |
| Template.ParseUnparse | RenderExport/ExportImportReferenceEdits.py:8-9 | reading a pattern string spelled from literals and placeholders gives those pieces back |
| Template.ConnectHoles | RenderExport/ExportImportReferenceEdits.py:45 | the connection pattern has the placeholders `command`, `source`, `destination`, in this order |
| Template.SetAttrHoles | RenderExport/ExportImportReferenceEdits.py:80 | the `setAttr` pattern has the placeholders `command`, `attribute`, `value`, in this order |
| Template.ObjectHoles | RenderExport/ExportImportReferenceEdits.py:106 | the `addAttr`/`deleteAttr` pattern has the placeholders `command`, `object` |
| Template.ConnectPattern | RenderExport/ExportImportReferenceEdits.py:45 | the connection template consists of spellable pieces and spells `{command} "{source}" "{destination}"`, so by `Template.ParsePattern` that string reads as this template |
| Template.SetAttrPattern | RenderExport/ExportImportReferenceEdits.py:80 | the `setAttr` template consists of spellable pieces and spells `{command} {attribute} {value}`, so that string reads as this template |
| Template.ObjectPattern | RenderExport/ExportImportReferenceEdits.py:106 | the `addAttr`/`deleteAttr` template consists of spellable pieces and spells `{command} {object}`, so that string reads as this template |
| Template.ConnectFields | RenderExport/ExportImportReferenceEdits.py:45-53 | for `c "s" "d"` with plugs free of spaces and quotes, the search matches the whole text with command `c`, source `s` and destination `d` |
| Template.SetAttrFields | RenderExport/ExportImportReferenceEdits.py:80-86 | for `c a v` with a space-free attribute and value, the search gives command `c`, attribute `a` and value `v`: the value is the last field and the attribute the one before it |
| Template.ObjectFields | RenderExport/ExportImportReferenceEdits.py:106-108 | for `c o` with a space-free object, the search gives command `c` and object `o` |
| Text.Split | RenderExport/ExportImportReferenceEdits.py:48 | `s.split(c)` has at least one part, exactly one when `c` does not occur, and no part contains `c` |
| Text.JoinSplit | RenderExport/ExportImportReferenceEdits.py:48 | joining the parts of `s.split(c)` with `c` gives `s` back |
| Text.LastSegment | maya2ae.py:633 | `s.split(c)[-1]` is the text after the last `c`, or all of `s` when there is none |
| Text.AllButLastSegment | RenderExport/ExportImportReferenceEdits.py:48 | `c.join(s.split(c)[:-1])` is the text before the last `c`, or `''` when there is none |
| Text.ReplaceCharAt | maya2ae.py:442-443 | replacing one character by another keeps the length and changes exactly the positions that held it |
| Text.FirstToken | RenderExport/ExportImportReferenceEdits.py:35 | there is no first `\S+` token exactly when the edit is all whitespace; otherwise the token is the non-empty, space-free run that starts after the leading whitespace and ends at a space or the end |
| Text.Collapse | RenderExport/ExportImportReferenceEdits.py:79 | after `re.sub('\s+', ' ', …)` the only whitespace left is single spaces, and the text starts with a space exactly when the input starts with whitespace |
| Text.Words | RenderExport/ExportImportReferenceEdits.py:35 | `re.findall(r'\S+', s)`: every word found is non-empty and holds no whitespace |
| Text.CollapseWords | RenderExport/ExportImportReferenceEdits.py:79 | collapsing the whitespace keeps the `\S+` words of the text, in order |
| Text.CollapseEnds | RenderExport/ExportImportReferenceEdits.py:79 | the collapsed text is empty only for empty input, and ends with a space exactly when the input ends with whitespace; with `Text.Collapse` and `Text.CollapseWords` this fixes its value |
| Text.RemoveLiteral | RenderExport/ExportImportReferenceEdits.py:44 | defines `re.sub(p, '', s)` for a pattern without metacharacters: the occurrences of `p` are removed from left to right, and the empty pattern removes nothing |
| Text.CollapseTidy | RenderExport/ExportImportReferenceEdits.py:79 | collapsing leaves text whose whitespace is already single spaces unchanged |
| Text.DashFlags | RenderExport/ExportImportReferenceEdits.py:43 | every `-\S+` match found starts with `-`, has at least two characters and no whitespace |
| Text.DashFlagsNone | RenderExport/ExportImportReferenceEdits.py:43 | an edit without `-` has no flags, so `parameters` is `''` |
| Text.DashFlagsWithValue | RenderExport/ExportImportReferenceEdits.py:104 | every `-\S+\s\S+` match found starts with `-` and has at least four characters |
| Text.IntRoundTrip | maya2ae.py:751 | the decimal text of an integer reads back as that integer and holds no line break or quote |
| Text.ZeroPad | nparticleToMesh.py:138 | `%04d`-style padding: the result is as wide as the width or the digits, ends with the digits and is zeros before them |
| Text.PaddedRoundTrip | nparticleToMesh.py:138 | the zero-padded decimal text of `n` is all digits and reads back as `n` |
| Text.IntToDecimal | maya2ae.py:751 | defines `str(i)`: a `-` for a negative number, then the decimal digits without leading zeros; `Text.IntRoundTrip` proves it reads back |
| Text.SortStrings | RenderExport/ExportImportReferenceEdits.py:34 | defines `sorted` on strings as insertion in character-code order; `Text.SortStringsCorrect` proves it ordered and a permutation |
| Text.SortStringsCorrect | RenderExport/ExportImportReferenceEdits.py:34 | `sorted(refEdits)` is ordered by character code and is a permutation of its input |
| Paths.Basename | maya2ae.py:743 | `os.path.basename` holds no slash, is a suffix of the path, and is either the whole path or preceded by a slash: it is the text after the last slash |
| Paths.Dirname | maya2ae.py:744 | `os.path.dirname` is a prefix of the path, empty exactly when the path has no slash, followed only by slashes before the base name; when it is all slashes (a root) it is the whole slash run, otherwise it ends in a character other than a slash |
| Paths.SplitExtRoot | maya2ae.py:743 | `os.path.splitext(p)[0]` is a prefix of `p` |
| Paths.DirnameBasename | maya2ae.py:743-744 | for `dir + '/' + name`, the directory is `dir` and the base name is `name` |
| Paths.SplitExtAppended | maya2ae.py:743 | removing the extension of `name + '.' + ext` gives `name` back |
| Lists.FirstIndex | RenderExport/ExportImportReferenceEdits.py:38 | `xs.index(y)` is the position of the first occurrence of `y` |
| Lists.Flatten | RenderExport/ExportImportReferenceEdits.py:19-20 | an edit occurs in the nested loops' stream exactly when it occurs in some child's list |
| Lists.AddUnseen | RenderExport/ExportImportReferenceEdits.py:19-22 | defines the list `acc` after `if not x in acc: acc.append(x)` for each `x` in turn |
| Lists.AddUnseenContents | RenderExport/ExportImportReferenceEdits.py:19-22 | the append-if-absent loop keeps the old list as a prefix, ends with exactly the old and the new elements, and appends only elements not already there |
| Lists.AddUnseenNoDup | RenderExport/ExportImportReferenceEdits.py:21-22 | the loop never creates a duplicate |
| Lists.AddUnseenFirstSeenOrder | RenderExport/ExportImportReferenceEdits.py:19-22 | the appended elements come in the order of their first occurrence |
| Lists.Range | maya2ae.py:620 | `range(lo, hi)` holds `lo, lo+1, …, hi-1` and is empty when `hi <= lo` |
| RefEdits.ObjectPart | RenderExport/ExportImportReferenceEdits.py:48 | the object of a plug is the text before its last dot, or `''` when it has no dot |
| RefEdits.AttributePart | RenderExport/ExportImportReferenceEdits.py:49 | removing `object + '.'` leaves the text after the last dot, which has no dot |
| RefEdits.PlugParts | RenderExport/ExportImportReferenceEdits.py:48-53 | the object, a dot and the attribute rebuild a dotted plug, and `node.attr` with a dot-free attribute splits back into `node` and `attr` |
| RefEdits.HasType | RenderExport/ExportImportReferenceEdits.py:50 | `cmds.nodeType(n) if cmds.objExists(n) else None` is truthy: the name is non-empty, names a node, and its type is non-empty |
| RefEdits.KindOf | RenderExport/ExportImportReferenceEdits.py:42-103 | defines the branch an edit takes, with the `startswith` tests in the order of the source: connection, `parent`, `setAttr`, `addAttr`/`deleteAttr`, anything else |
| RefEdits.ConnectionCommand | RenderExport/ExportImportReferenceEdits.py:43-44 | defines the connection command text: the edit with the space-joined `-\S+` flags removed |
| RefEdits.SetAttrCommand | RenderExport/ExportImportReferenceEdits.py:78-79 | defines the `setAttr` command text: the flags removed as for connections, then each whitespace run made one space |
| RefEdits.AttrEditCommand | RenderExport/ExportImportReferenceEdits.py:104-105 | defines the `addAttr`/`deleteAttr` command text: the space-joined `-\S+\s\S+` pairs removed, then each whitespace run made one space |
| RefEdits.AttrEditNode | RenderExport/ExportImportReferenceEdits.py:108 | the node an `addAttr`/`deleteAttr` object names holds no quote: quotes are removed, then the text before the last dot is taken when there is a dot |
| RefEdits.KeepConnection | RenderExport/ExportImportReferenceEdits.py:50-59 | defines the connection keep rule on two plugs: both nodes exist with a type, neither type is excluded and neither attribute is excluded |
| RefEdits.KeepSetAttr | RenderExport/ExportImportReferenceEdits.py:84-90 | defines the `setAttr` keep rule on one plug: the node exists with a type that is not excluded, and the attribute is not excluded |
| RefEdits.KeepConnectionEdit | RenderExport/ExportImportReferenceEdits.py:43-59 | defines the connection branch: the source and destination read from the command text, then the connection keep rule |
| RefEdits.KeepSetAttrEdit | RenderExport/ExportImportReferenceEdits.py:78-90 | defines the `setAttr` branch: the plug read from the command text, then the `setAttr` keep rule |
| RefEdits.KeepAttrEdit | RenderExport/ExportImportReferenceEdits.py:104-112 | defines the `addAttr`/`deleteAttr` branch: kept exactly when the node its object names exists with a type |
| RefEdits.Keep | RenderExport/ExportImportReferenceEdits.py:42-114 | defines whether an edit is written: the keep rule of its branch; `parent` edits and edits of any other kind are never written |
| RefEdits.KeepConnectionIff | RenderExport/ExportImportReferenceEdits.py:42-61 | a `connectAttr`/`disconnectAttr` edit `c "s" "d"` is kept exactly when both endpoint objects have a type, neither type is excluded and neither attribute is excluded |
| RefEdits.SetAttrText | RenderExport/ExportImportReferenceEdits.py:78-81 | a tidy `setAttr` edit without flags is unchanged by flag removal and whitespace collapsing, and its fields are its three words |
| RefEdits.KeepSetAttrIff | RenderExport/ExportImportReferenceEdits.py:77-92 | a `setAttr` edit `c a v` is kept exactly when the object of `a` has a type that is not excluded and the attribute of `a` is not excluded |
| RefEdits.KeepAttrEditIff | RenderExport/ExportImportReferenceEdits.py:103-114 | an `addAttr`/`deleteAttr` edit is kept exactly when its unquoted object (the part before the last dot, if any) has a type; no exclusion list applies |
| RefEdits.Tags | RenderExport/ExportImportReferenceEdits.py:36 | the tags of the root's children, in child order |
| RefEdits.GroupIndex | RenderExport/ExportImportReferenceEdits.py:36-38 | the index of the first child with the tag, or the child count when there is none |
| RefEdits.Visit | RenderExport/ExportImportReferenceEdits.py:36-40 | defines one turn of the export loop: the child with the tag is found, or appended at the end, and the edit is appended to it when kept |
| RefEdits.Grouped | RenderExport/ExportImportReferenceEdits.py:34-40 | defines the children after the loop has visited the edits in order |
| RefEdits.VisitTags | RenderExport/ExportImportReferenceEdits.py:36-40 | visiting an edit adds its tag as a new last child exactly when no child has it yet |
| RefEdits.VisitCommands | RenderExport/ExportImportReferenceEdits.py:37-40 | visiting an edit appends it to the child of its own tag, only when it is kept, and changes no other child's commands |
| RefEdits.KeptWithTagMembers | RenderExport/ExportImportReferenceEdits.py:42-114 | the reference list for a tag holds exactly the edits with that tag that are kept |
| RefEdits.GroupedTags | RenderExport/ExportImportReferenceEdits.py:34-40 | the children's tags are the distinct first tokens of the edits, in the order they are first seen |
| RefEdits.GroupedDistinct | RenderExport/ExportImportReferenceEdits.py:36-40 | there is one child per distinct tag, and a tag has a child even when none of its edits is kept (a `parent` edit, say) |
| RefEdits.GroupedCommands | RenderExport/ExportImportReferenceEdits.py:34-114 | each child's commands are the kept edits with its tag, in visiting order |
| RefEdits.FirstUntagged | RenderExport/ExportImportReferenceEdits.py:35 | no edit is reported exactly when every edit has a first token; a reported edit is one without a token |
| RefEdits.FirstUntaggedAt | RenderExport/ExportImportReferenceEdits.py:34-35 | the edit reported is the first one in visiting order without a token, where the `IndexError` is raised |
| RefEdits.Build | RenderExport/ExportImportReferenceEdits.py:34-40 | the tree is built exactly when every edit has a tag, and otherwise the raise names an untagged edit |
| RefEdits.Export | RenderExport/ExportImportReferenceEdits.py:26-40 | an empty path does nothing; an empty directory part makes `os.makedirs('')` raise, whatever the file system holds; a directory part that is no directory writes nothing; a whitespace-only edit raises; otherwise the written tree carries the scene name and the grouping of the sorted edits |
| RefEdits.ExportedTree | RenderExport/ExportImportReferenceEdits.py:33-114 | a written tree has one child per distinct tag of the edits, in first-seen sorted order, each holding the kept edits with its tag |
| RefEdits.EditTree.constructor | RenderExport/ExportImportReferenceEdits.py:32-33 | the root carries the file name and has no children |
| RefEdits.EditTree.FindOrCreate | RenderExport/ExportImportReferenceEdits.py:36-40 | returns the first child with the tag, creating an empty one at the end when there is none |
| RefEdits.EditTree.Append | RenderExport/ExportImportReferenceEdits.py:60-61 | `SubElement(editType, "edit")` adds the command at the end of that child only |
| RefEdits.EditTree.VisitEdit | RenderExport/ExportImportReferenceEdits.py:36-114 | one edit of the loop finds or creates its tag's child and, when kept, adds its command there, as the one-edit step of the specification says |
| RefEdits.BuildTree | RenderExport/ExportImportReferenceEdits.py:34-114 | the loop over the edits builds the specified tree or stops at the first untagged edit |
| RefEdits.ExportRefEdits | RenderExport/ExportImportReferenceEdits.py:26-130 | the export procedure ends in the outcome the specification function gives |
| RefEdits.RefEditLog.constructor | RenderExport/ExportImportReferenceEdits.py:14 | the module-level list starts empty |
| RefEdits.RefEditLog.RecordChild | RenderExport/ExportImportReferenceEdits.py:20-22 | one child's edits are appended when not already in the list |
| RefEdits.RefEditLog.GetRefEdits | RenderExport/ExportImportReferenceEdits.py:17-23 | the list grows by the unseen edits of all children, across calls, and the call returns the whole list |
| RefEdits.LogAfterCall | RenderExport/ExportImportReferenceEdits.py:14-23 | after a call the old list is a prefix, the list holds exactly the old and the children's edits, has no duplicate, and the new ones come in first-seen order |
| RefEdits.FailingMembers | RenderExport/ExportImportReferenceEdits.py:148-151 | the commands reported as failing are exactly the dispatched ones `mel.eval` raises on; the rest still run |
| RefEdits.Import | RenderExport/ExportImportReferenceEdits.py:132-151 | nothing runs for an empty path or a missing file; an unparsable file raises with the message `<path> is not a valid xml file`; otherwise the commands of the children with a chosen tag are dispatched in document order |
| RefEdits.ImportRefEdits | RenderExport/ExportImportReferenceEdits.py:132-151 | the dispatch loop ends in the outcome the specification function gives |
| RefEdits.DispatchAll | RenderExport/ExportImportReferenceEdits.py:146-151 | the commands of one chosen child are dispatched after the earlier ones, and a raising one is reported without stopping the rest |
| RefEdits.DispatchStep | RenderExport/ExportImportReferenceEdits.py:147-151 | one more command of a child extends the dispatched list by it and the report by it exactly when it raises |
| RefEdits.FailingSnoc | RenderExport/ExportImportReferenceEdits.py:148-151 | one more dispatched command is added to the report exactly when it raises, after the earlier reports |
| RefEdits.Stored | RenderExport/ExportImportReferenceEdits.py:60-61 | the stored tree has the same tags and, per child, the same commands in the same order, each present as a `command` attribute |
| RefEdits.Dispatched | RenderExport/ExportImportReferenceEdits.py:144-149 | defines the commands handed to `mel.eval`, in document order: those of every child whose tag is among the chosen types |
| RefEdits.Failing | RenderExport/ExportImportReferenceEdits.py:148-151 | defines the dispatched commands for which `mel.eval` raises, in order; there are at most as many as were dispatched |
| RefEdits.DispatchedMembers | RenderExport/ExportImportReferenceEdits.py:144-149 | a command is dispatched exactly when some child with a chosen tag holds it |
| RefEdits.StoredCommands | RenderExport/ExportImportReferenceEdits.py:138-146 | reading a stored child gives back exactly the commands written to it |
| RefEdits.StoredDispatch | RenderExport/ExportImportReferenceEdits.py:144-149 | from a grouped tree, exactly the kept edits whose tag is chosen are dispatched, and none is missing its command |
| RefEdits.ImportAfterExport | RenderExport/ExportImportReferenceEdits.py:26-151 | importing a tree the export wrote dispatches exactly the edits that were kept and whose first token is a chosen type |
| Maya2AE.WriteJsx | maya2ae.py:742-808 | the written script is the specified header followed by the import part and, when asked, the removal block |
| Maya2AE.ParseAssignPrints | maya2ae.py:747-750 | an assignment read from a line prints back as that line |
| Maya2AE.ParseAssignLine | maya2ae.py:747-750 | a printed assignment with a plain name reads back as itself |
| Maya2AE.LinesSplit | maya2ae.py:746-751 | splitting the header at line breaks gives one line per assignment, then the rest |
| Maya2AE.ParseAllLines | maya2ae.py:747-750 | the printed assignment lines read back as the assignments |
| Maya2AE.HeaderSplit | maya2ae.py:746-751 | the header starts with an empty line, then one line per assignment |
| Maya2AE.HeaderRoundTrip | maya2ae.py:746-751 | whatever follows it, the header reads back as its assignments |
| Maya2AE.HeaderReadable | maya2ae.py:747-750 | four newline-free values make a header that can be read back |
| Maya2AE.FieldsReadable | maya2ae.py:743-751 | the header fields of a newline-free path and fps can be read back |
| Maya2AE.JsxFields | maya2ae.py:743-751 | defines the four header values: the file name of the path without its extension, the directory of the path, the start frame as decimal text, and the frame rate |
| Maya2AE.Script | maya2ae.py:742-804 | defines the script `writeJSX` writes: the header of the four assignments, then the body |
| Maya2AE.Body | maya2ae.py:752-804 | defines the body: the fixed import part, then the removal block when it is asked for |
| Maya2AE.ScriptHeader | maya2ae.py:743-751 | the written script's header reads back as `compName` (the base name without its extension), `filePath` (the directory), `startFrame` and `fps`, in this order |
| Maya2AE.EndsWithBlockIff | maya2ae.py:797-804 | text that ends unlike the block ends with the block exactly when the block was appended |
| Maya2AE.BodyDeletes | maya2ae.py:797-804 | the script ends with the block removing the `.ma` and `.jsx` files exactly when `deleteAfterImport` is set |
| Maya2AE.Channels | maya2ae.py:621-627 | the channels are exactly those of the groups asked for, three per group, translate then rotate then scale and x, y, z within each |
| Maya2AE.AttrNameInjective | maya2ae.py:623-627 | distinct channels have distinct attribute names |
| Maya2AE.ObjName | maya2ae.py:633 | with full path names every path separator (vertical bar) becomes `_` and the first character is dropped; otherwise the name is the last path segment; either way no separator is left |
| Maya2AE.DummyName | maya2ae.py:636 | defines the helper locator's name `'%s_Temp' % objName` |
| Maya2AE.BakedName | maya2ae.py:643 | defines the baked copy's name: `Cam_<name>_Baked` for a camera, `Null_<name>_Baked` otherwise |
| Maya2AE.NamePairs | maya2ae.py:629-670 | defines `transformsToBake`: one (helper, baked copy) pair per object, in the order of the objects |
| Maya2AE.DummyNotBaked | maya2ae.py:636-643 | a `_Temp` helper is never named like a baked node |
| Maya2AE.BakedNameInjective | maya2ae.py:643 | the baked name determines the object name and whether it is a camera (`Cam_` versus `Null_`) |
| Maya2AE.ObjectKeysLayout | maya2ae.py:676-678 | one baked node on one frame gets one key per channel, in channel order, with the sampled value of its helper |
| Maya2AE.FrameKeysLayout | maya2ae.py:675-678 | one frame's keys are the baked nodes in order, each with its channels |
| Maya2AE.BakeKeys | maya2ae.py:673-678 | the keys set, frame after frame, pair after pair, channel after channel: as many as frames times pairs times channels |
| Maya2AE.BakeKeysRow | maya2ae.py:673-678 | the keys of frame `f` form the `f`-th block of the whole key list |
| Maya2AE.BakeKeyAt | maya2ae.py:673-678 | the key at frame `f`, node `p`, channel `k` is for that node's baked copy, that channel's attribute and that frame, with the value sampled from the helper |
| Maya2AE.BakeKeysLayout | maya2ae.py:673-678 | the same, for every frame, node and channel at once |
| Maya2AE.BakeKeysFrameOrder | maya2ae.py:673 | over increasing frames, keys are set in non-decreasing frame order |
| Maya2AE.BakeKeysFrames | maya2ae.py:620-673 | every key is set on a frame of the range |
| Maya2AE.PrepareObjects | maya2ae.py:629-670 | the loop over the objects builds one (helper, baked) name pair per object, in object order |
| Maya2AE.KeyFrame | maya2ae.py:674-678 | the loop over nodes and channels sets the specified keys of one frame |
| Maya2AE.BakeCamLoc | maya2ae.py:619-686 | returns one baked name per input object, in input order, and sets exactly the keys of every frame of `startFrame..endFrame`, node and chosen channel |
| Maya2AE.Slashed | maya2ae.py:442-443 | every backslash becomes a slash and nothing else changes |
| Maya2AE.Export2AE | maya2ae.py:441-500 | refuses an empty path, then an empty comp name, then an empty export list, then a list without a camera, then a path that is no directory; otherwise the files are `dir + '/' + comp + '.ma'` and `'.jsx'` |
| Maya2AE.SiblingFiles | maya2ae.py:468-469 | the directory and the extension-less base name of the `.jsx` path rebuild the `.ma` path |
| Maya2AE.ScriptImportsExportedMa | maya2ae.py:468-477 | the script written for an export imports `filePath + "/" + compName + ".ma"`, which is the `.ma` file the export writes |
| ParticleBake.AsList | nparticleToMesh.py:98-99 | a scalar reading becomes a one-element list; a vector reading stays as it is |
| ParticleBake.Trunc | nparticleToMesh.py:101 | `int(x)` rounds toward zero |
| ParticleBake.InstanceIndexAsWritten | nparticleToMesh.py:96-105 | index 0 without an object-index attribute; with one, an error exactly when the reading is empty, otherwise `int(s[0])` cut down to at most `len(s)-1` |
| ParticleBake.ScalarIndexCollapses | nparticleToMesh.py:98-103 | a scalar index 2.0 picks object 0 as written, but object 2 of three when clamped to the object count |
| ParticleBake.ScalarIndexAlwaysFirst | nparticleToMesh.py:98-103 | as written, every scalar index of 1.0 or more picks object 0 |
| ParticleBake.InstanceIndex | nparticleToMesh.py:96-105 | index 0 without an object-index attribute, and with one an error exactly when the reading is empty |
| ParticleBake.InstanceIndexSelects | nparticleToMesh.py:96-105 | an index below the object count is kept, a larger one becomes the last object, and a non-negative reading always names an object |
| ParticleBake.PyIndex | nparticleToMesh.py:143 | `objects[i]` exists exactly for `-len <= i < len`, counting from the end for a negative `i` |
| ParticleBake.InstName | nparticleToMesh.py:138 | defines the instance name `"%s_geo_%04d" % (pTrans, i)` |
| ParticleBake.InstNameInjective | nparticleToMesh.py:138 | two particles of one system never get the same instance name |
| ParticleBake.InstNameWidth | nparticleToMesh.py:138 | below 10000 the name is the transform name plus nine characters, `_geo_` and four digits |
| ParticleBake.ParticleNames | nparticleToMesh.py:82-138 | the names of particles `0..n-1`, in order |
| ParticleBake.InParticleNames | nparticleToMesh.py:82-138 | particle `i`'s name is among the first `n` names exactly when `i < n` |
| ParticleBake.ParticleNamesNoDup | nparticleToMesh.py:138 | the names of different particles are distinct |
| ParticleBake.AddUnseenParticleNames | nparticleToMesh.py:145-146 | adding the names of `n` particles to those of `m` leaves the names of `max(m, n)` particles |
| ParticleBake.KeyTimes | nparticleToMesh.py:196 | defines the times `pm.keyframe(node, query=True)` returns: one entry per key set on the node, in the order the keys were set |
| ParticleBake.KeyTimesAppend | nparticleToMesh.py:196 | the keys of a node after two runs of writes are those of the first followed by those of the second |
| ParticleBake.KeyTimesElsewhere | nparticleToMesh.py:196 | writes that key no channel of a node leave it without keys |
| ParticleBake.BakeKeys | nparticleToMesh.py:186-187 | an instance is keyed on `tx … sz, v`, in this order, at the current frame with the current value |
| ParticleBake.Step | nparticleToMesh.py:96-187 | defines one particle at one frame: the index read as written, then the node named after the particle reused or duplicated from the indexed object, recorded once in `instances` and keyed on ten channels; an aim direction attribute, an unusable index or an object index out of range raises |
| ParticleBake.Particles | nparticleToMesh.py:82-187 | defines particles `0 .. n-1` of one frame, in order |
| ParticleBake.Frames | nparticleToMesh.py:78-187 | defines every frame of the range in order, each with the particle count of that frame |
| ParticleBake.MaxCount | nparticleToMesh.py:78-82 | the largest particle count over the frames, 0 for no frames |
| ParticleBake.ParticlesFailed | nparticleToMesh.py:82-143 | once a particle raises, the rest of the frame changes nothing |
| ParticleBake.FramesFailed | nparticleToMesh.py:78-143 | once a frame raises, the remaining frames change nothing |
| ParticleBake.ParticlesInstances | nparticleToMesh.py:82-146 | a frame adds the names of its particles to `instances`, each when not already there |
| ParticleBake.FramesInstances | nparticleToMesh.py:78-146 | after all frames, `instances` names the particles up to the largest count seen |
| ParticleBake.BakeInstancesNoDup | nparticleToMesh.py:48-146 | a system's `instances` list holds each particle name once, in particle order, up to the largest particle count of the frames |
| ParticleBake.RecordConsistent | nparticleToMesh.py:145-187 | recording and keying a node that exists keeps the bake invariant |
| ParticleBake.DuplicateConsistent | nparticleToMesh.py:139-146 | duplicating an object under a name the scene lacks keeps the bake invariant |
| ParticleBake.StepConsistent | nparticleToMesh.py:96-143 | one particle keeps the bake invariant: old writes stay, the scene gains exactly the new instances, every write is a duplicate of an instanced object or a current-value key of a baked channel, and no name is duplicated twice |
| ParticleBake.ParticlesConsistent | nparticleToMesh.py:82-187 | a whole frame keeps the bake invariant |
| ParticleBake.FramesConsistent | nparticleToMesh.py:78-187 | all frames keep the bake invariant |
| ParticleBake.BakeConsistent | nparticleToMesh.py:48-187 | the bake of a system, from a fresh `instances` list, satisfies the bake invariant |
| ParticleBake.StepScalarDuplicatesFirst | nparticleToMesh.py:96-141 | a particle with a scalar reading of 2 and three objects, and no node of its name yet, is baked as a duplicate of the first object |
| ParticleBake.StepVectorPastObjectsRaises | nparticleToMesh.py:96-141 | a vector reading `[2.5, 0, 0]` with two objects, when a duplicate is needed, raises on `objects[2]` |
| ParticleBake.ParticlesAimRaises | nparticleToMesh.py:105-109 | with an aim direction attribute, a frame ends without error exactly when it has no particle, and then changes nothing |
| ParticleBake.FramesAimRaises | nparticleToMesh.py:105-109 | with an aim direction attribute, a bake ends without error exactly when no frame of the range has a particle |
| ParticleBake.AttrCleanup | nparticleToMesh.py:198-202 | defines the cleanup of one attribute at one key time: a zero key on the next frame, then on the previous frame, each only when that frame holds no key; at most two writes |
| ParticleBake.AttrsCleanup | nparticleToMesh.py:198-202 | defines the cleanup of the four attributes at one key time, in order; at most two writes each |
| ParticleBake.KeysCleanup | nparticleToMesh.py:197-202 | defines the cleanup of one instance over its key times, one time after the other; at most eight writes per time |
| ParticleBake.CleanupLog | nparticleToMesh.py:195-202 | defines the cleanup of the instances in order, each reading its key times from the scene as the cleanup of the instances before it left it |
| ParticleBake.AttrsCleanupIff | nparticleToMesh.py:198-202 | the writes for key `fr` are exactly zero keys at `fr+1` and `fr-1` that are not keys, on the given channels |
| ParticleBake.KeysCleanupIff | nparticleToMesh.py:197-202 | the cleanup writes are exactly zero keys on `sx, sy, sz, v` at a time that is no key but next to one |
| ParticleBake.CleanupIff | nparticleToMesh.py:196-202 | the same for the keys the node holds: zero keys go exactly next to an original key and never on one |
| ParticleBake.CleanupSpan | nparticleToMesh.py:195-202 | for keys spanning `a..b`, zero keys go exactly on `a-1` and `b+1`, on each of the four channels |
| ParticleBake.CleanupLogWrites | nparticleToMesh.py:195-202 | the cleanup only sets zero keys, and only on the instances |
| ParticleBake.CleanupReadsOriginalKeys | nparticleToMesh.py:195-202 | with distinct instances, reading each instance's keys before its own cleanup gives the same writes as reading all keys before any cleanup, so cleanup keys never cause further cleanup keys |
| ParticleBake.SystemRun | nparticleToMesh.py:46-202 | defines one entry of `nParticles`: without an instancer, the empty `instances` are parented under the group made last, and the run raises when there is none; with one, the group, the bake, the parenting and the cleanup |
| ParticleBake.RunAll | nparticleToMesh.py:46-202 | defines the run over the systems in order |
| ParticleBake.SystemRunShape | nparticleToMesh.py:46-202 | a system that bakes without error ends with its instances (the particle names up to the largest count) parented under the group, followed by the cleanup computed from the keys before it |
| ParticleBake.RunAllFailed | nparticleToMesh.py:46-202 | once a system raises, the remaining systems change nothing |
| ParticleBake.Scene.KeyInstance | nparticleToMesh.py:186-187 | the loop over the ten channels appends their keys and adds no node |
| ParticleBake.Scene.BakeParticle | nparticleToMesh.py:96-187 | one particle changes the scene and `instances` as the specification step says: the object is `objects[i]` for the as-written index `i`, which raises when it is out of range, and an aim direction attribute raises |
| ParticleBake.Scene.BakeFrame | nparticleToMesh.py:81-187 | the loop over a frame's particles changes the scene and `instances` as the specification says, each particle picking its object with the as-written index |
| ParticleBake.Scene.BakeSystem | nparticleToMesh.py:78-187 | the loop over `startFrame..endFrame` bakes a system from an empty `instances` list as the specification says, with the as-written index |
| ParticleBake.Scene.CleanupFrame | nparticleToMesh.py:198-202 | the loop over the four channels appends the zero keys of one key time |
| ParticleBake.Scene.CleanupInstance | nparticleToMesh.py:196-202 | one instance's cleanup reads its key times once, then appends the zero keys they call for |
| ParticleBake.Scene.Cleanup | nparticleToMesh.py:195-202 | the loop over the instances appends the specified cleanup writes |
| ParticleBake.Scene.BakeNParticles | nparticleToMesh.py:42-202 | baking every system in turn leaves the scene, the writes and the error status the specification gives, with the as-written index |

## Left out

- File I/O is not modelled: the XML file written by the reference-edit export, the `.jsx` file and `os.makedirs`. The file state is an input (`DirState`, whether the file exists) and the written content is the returned value.
- Console output is not modelled: `print`, `cmds.warning` and message dialogs. A refusal is returned as a value instead.
- XML serialisation and parsing are not modelled. The tree is a sequence of (tag, commands) groups. Whether a stored file parses is an input, and pretty-printing is left out.
- RefEdits.ImportAfterExport: holds for the lossless tree of the model. `minidom` writes the commands as attributes and `ET.parse` normalises attribute whitespace, so in the source it holds only for edits without a tab, newline or carriage return.
- `re.sub(parameters, '', edit)` is modelled as literal removal of the joined flag string. Flags containing regular-expression metacharacters would behave differently in the source and are not modelled.
- `string_to_dict` is modelled over patterns already read into literals and placeholders. Its regular-expression engine is reduced to leftmost search with greedy `.+` groups, which is all the three fixed patterns need.
- `cmds.objExists` and `cmds.nodeType` are a map from node names to types. `mel.eval` failing is an oracle set of commands, and the effect of the commands is not modelled.
- `os.path` follows posixpath. Windows drive letters and backslash separators in `os.path` are not modelled. The backslash replacement of the text fields is modelled (`Maya2AE.Slashed`).
- The Qt user interface, undo chunks, `spawnAE`, `writeMA` and the Maya scene graph are outside this model.
- `bakeCamLoc` leaves out the attribute copy of cameras (maya2ae.py:656-666). It also leaves out the helper locators, parent constraints and deletes (maya2ae.py:637-648, 681-684), and Maya renaming a node when two objects share a name. The values sampled from the helpers are an oracle function.
- The frame rate in the JSX header is a string given already formatted.
- Text is modelled as sequences of Unicode code points. Under Python 2, `str.format` on a byte-string template encodes a `unicode` argument as ASCII, so the line-edit texts that `export2ae` passes on (maya2ae.py:442-443, 468-469), formatted into the JSX header (maya2ae.py:746-751) or the export message (RenderExport/ExportImportReferenceEdits.py:28), raise `UnicodeEncodeError` when they hold a non-ASCII character. That raise is not modelled: `Maya2AE.WriteJsx`, `Maya2AE.Export2AE` and `RefEdits.Export` succeed on such text.
- Maya2AE.ScriptImportsExportedMa: stated for a path whose last character is not a separator and a comp name without separators, the shape the source's path join assumes.
- Paths.SplitExtRoot: its own contract states only that the result is a prefix of the path. The exact result for `name.ext` is stated by `Paths.SplitExtAppended`.
- Text.DashFlags: the contract states the shape of each found flag, not that every `-\S+` token is found. The flag-free case is stated by `Text.DashFlagsNone`.
- Text.DashFlagsWithValue: as for `Text.DashFlags`; the flag-free case is `Text.DashFlagsWithValueNone`.
- RefEdits.KeepConnectionIff: stated for edits without flags (no `-`), where the flag removal changes nothing.
- RefEdits.KeepSetAttrIff: stated for tidy edits without flags and with space-free attribute and value.
- RefEdits.KeepAttrEditIff: stated for tidy edits without flags and with a space-free object.
- The nParticle bake leaves out everything that only feeds `xform` and the aim constraint: position, rotation, scale, aim position and axes, and the matrix products (nparticleToMesh.py:83-94, 110-136, 148-184). That includes the `(1,1,1)` scale default at lines 91-94, which only feeds `xform`. It also leaves out the group's `xform` at line 191.
- The aim direction (nparticleToMesh.py:105-109) is modelled only by its effect: the `mel.eval` of `unit(<<['1.0', '0.0', '0.0']>>)`, a Python list formatted into MEL, raises and ends the bake. Were Maya to accept that text, the list comprehension would rebind `i` under Python 2, and the instance would be named after the last aim component. That case is not modelled.
- `pm.currentTime` and the progress `print` are not modelled.
- Maya renaming a group or a duplicate on a name clash is not modelled. `pm.ls(name)` is an exact-name lookup in the scene's node set.
- `pm.keyframe(…, query=True)` is modelled as the key times in the order they were set, one entry per key set; the order and repetition of the times the query returns are abstracted. The zero keys the cleanup sets depend only on which times occur. The order and the repeats change only the order of its writes and how often an identical write is repeated.
- A duplicate carries no keys of its source.
- The default arguments of `bakeNParticles` (all nParticles, the playback range) are parameters.

## Findings

| source | as written | input that shows it | evidently intended | confidence | as-written member | corrected member |
|---|---|---|---|---|---|---|
| nparticleToMesh.py:100-103 | the index `int(s[0])` is clamped to `len(s)-1`, the length of the particle's own object-index reading, which is 1 when the reading is a scalar | a scalar object-index reading of 2.0 with three instanced objects: `s` becomes `[2.0]`, `sObjects` is 1, and object 0 is picked | clamp to the number of instanced objects, so that object 2 is picked | medium, not executed | ParticleBake.InstanceIndexAsWritten, ParticleBake.ScalarIndexCollapses, ParticleBake.ScalarIndexAlwaysFirst | ParticleBake.InstanceIndex, ParticleBake.InstanceIndexSelects |

The bake (`ParticleBake.Step` and the methods of `ParticleBake.Scene`) follows the code as written and uses `InstanceIndexAsWritten`. So a vector reading such as `[2.5, 0, 0]` with two objects gives index 2, and `objects[2]` raises. `InstanceIndex` is the intended index, stated and proved beside it.
