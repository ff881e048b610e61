/** `ExportImportReferenceEdits.py`: collecting the reference edits of a
    scene, writing the worthwhile ones grouped by command into an XML tree,
    and replaying a stored tree's commands.

    Maya itself is reduced to what the script asks of it: a `Scene` answers
    `cmds.objExists` and `cmds.nodeType`, the edit strings of each child
    reference are given, and `mel.eval` is an oracle saying which commands
    raise. */
module RefEdits {
  import opened Lists
  import opened Text
  import opened Template
  import opened Paths

  /** `cmds.objExists(n)` holds for the keys other than `""`; `cmds.nodeType(n)`
      is the value. */
  type Scene = map<string, string>

  /** `cmds.nodeType(n) if cmds.objExists(n) else None` used as a condition:
      the node exists and its type is a non-empty string. No node has the
      empty name, so `cmds.objExists('')` is false whatever the map holds. */
  predicate HasType(scene: Scene, n: string) {
    n != "" && n in scene && scene[n] != ""
  }

  /** What decides whether an edit is kept: the scene and the two exclusion
      lists of `export_refedits`. */
  datatype Filters = Filters(scene: Scene, excludeAttr: seq<string>, excludeType: seq<string>)

  /** The default `excludeAttr` argument. */
  const DefaultExcludeAttr: seq<string> :=
    ["renderLayerInfo", "displaySmoothMesh", "dispResolution", "translateX", "translateY", "translateZ"]

  /** The default `excludeType` argument, duplicates included. */
  const DefaultExcludeType: seq<string> :=
    ["animCurveTL", "animCurveTA", "animCurveTU", "blendShape", "pairBlend", "skinCluster",
     "parentConstraint", "hyperLayout", "hyperView", "joint", "camera", "blendShape", "skinCluster"]

  /** The default `type` argument of `import_refedits`. */
  const DefaultImportTypes: seq<string> :=
    ["connectAttr", "disconnectAttr", "parent", "setAttr", "addAttr", "deleteAttr"]

  // ---------------------------------------------------------------------
  // reading one edit string

  predicate StartsWith(s: string, prefix: string) {
    |prefix| <= |s| && s[..|prefix|] == prefix
  }

  /** The branch of `export_refedits` an edit takes; `str.startswith` is
      tried in the order of the source. */
  datatype EditKind = Connection | Parent | SetAttr | AttrEdit | Other

  function KindOf(edit: string): EditKind {
    if StartsWith(edit, "connectAttr") || StartsWith(edit, "disconnectAttr") then Connection
    else if StartsWith(edit, "parent") then Parent
    else if StartsWith(edit, "setAttr") then SetAttr
    else if StartsWith(edit, "addAttr") || StartsWith(edit, "deleteAttr") then AttrEdit
    else Other
  }

  /** `'.'.join(plug.split('.')[:-1])`: the node before the last dot, or the
      empty string when there is no dot. */
  function ObjectPart(plug: string): (r: string)
    ensures r == if '.' in plug then plug[..LastIndex(plug, '.')] else ""
  {
    var parts := Split(plug, '.');
    AllButLastSegment(plug, '.');
    Join(parts[..|parts| - 1], '.')
  }

  /** `plug.replace(ObjectPart(plug) + '.', '')`: the attribute after the
      last dot. The node part with its dot occurs only at the front. */
  function AttributePart(plug: string): (r: string)
    ensures r == plug[LastIndex(plug, '.') + 1..]
    ensures '.' !in r
  {
    var obj := ObjectPart(plug);
    var k := LastIndex(plug, '.');
    var attr := plug[k + 1..];
    if '.' in plug then
      assert plug == (obj + ".") + attr;
      ReplaceAtFront(obj + ".", attr, "");
      ReplaceAbsent(attr, obj + ".", "");
      ReplaceAll(plug, obj + ".", "")
    else
      ReplaceAbsent(plug, obj + ".", "");
      ReplaceAll(plug, obj + ".", "")
  }

  /** The two parts rebuild a plug that has a dot, and a plug built from a
      node and a dot-free attribute splits back into them. */
  lemma {:induction false} PlugParts(plug: string, node: string, attr: string)
    ensures '.' in plug ==> ObjectPart(plug) + "." + AttributePart(plug) == plug
    ensures '.' !in attr && plug == node + "." + attr ==>
      ObjectPart(plug) == node && AttributePart(plug) == attr
  {
    if '.' in plug {
      var k := LastIndex(plug, '.');
      assert plug == plug[..k] + [plug[k]] + plug[k + 1..];
    }
    if '.' !in attr && plug == node + "." + attr {
      var k := LastIndex(plug, '.');
      assert plug[|node|] == '.';
      assert k == |node|;
      assert plug[..k] == node && plug[k + 1..] == attr;
    }
  }

  /** `re.sub(parameters, '', edit)` where `parameters` joins the `-\S+`
      matches with spaces. */
  function ConnectionCommand(edit: string): string {
    RemoveLiteral(edit, Join(DashFlags(edit), ' '))
  }

  /** The same, followed by `re.sub('\s+', ' ', …)`. */
  function SetAttrCommand(edit: string): string {
    Collapse(RemoveLiteral(edit, Join(DashFlags(edit), ' ')))
  }

  /** As above, but the removed flags are the `-\S+\s\S+` pairs. */
  function AttrEditCommand(edit: string): string {
    Collapse(RemoveLiteral(edit, Join(DashFlagsWithValue(edit), ' ')))
  }

  /** The node an `addAttr`/`deleteAttr` object names: quotes removed, then
      the part before the last dot when there is a dot. */
  function AttrEditNode(obj: string): (r: string)
    ensures '"' !in r
  {
    var o := ReplaceAll(obj, "\"", "");
    ReplaceRemoves(obj, '"');
    if |Split(o, '.')| > 1 then ObjectPart(o) else o
  }

  /** The keep rule of the connection branch. */
  predicate KeepConnection(f: Filters, source: string, destination: string) {
    var so := ObjectPart(source);
    var dob := ObjectPart(destination);
    && HasType(f.scene, so) && HasType(f.scene, dob)
    && f.scene[so] !in f.excludeType && f.scene[dob] !in f.excludeType
    && AttributePart(source) !in f.excludeAttr && AttributePart(destination) !in f.excludeAttr
  }

  /** The keep rule of the `setAttr` branch. */
  predicate KeepSetAttr(f: Filters, plug: string) {
    var o := ObjectPart(plug);
    HasType(f.scene, o) && f.scene[o] !in f.excludeType && AttributePart(plug) !in f.excludeAttr
  }

  /** A field of `string_to_dict(text, pattern)` for a pattern whose
      placeholders are distinct. */
  function Field(text: string, t: seq<Piece>, name: string): (r: string)
    requires NoDup(HoleNames(t)) && name in HoleNames(t)
    ensures Search(text, t).None? ==> r == ""
  {
    StringToDict(text, t)[name]
  }

  lemma {:induction false} DistinctHoles()
    ensures NoDup(HoleNames(ConnectTemplate)) && NoDup(HoleNames(SetAttrTemplate))
    ensures NoDup(HoleNames(ObjectTemplate))
    ensures "source" in HoleNames(ConnectTemplate) && "destination" in HoleNames(ConnectTemplate)
    ensures "attribute" in HoleNames(SetAttrTemplate) && "object" in HoleNames(ObjectTemplate)
  {
    ConnectHoles();
    SetAttrHoles();
    ObjectHoles();
  }

  /** The connection branch: the two plugs, then the keep rule. */
  predicate KeepConnectionEdit(f: Filters, edit: string) {
    DistinctHoles();
    var text := ConnectionCommand(edit);
    KeepConnection(f, Field(text, ConnectTemplate, "source"), Field(text, ConnectTemplate, "destination"))
  }

  predicate KeepSetAttrEdit(f: Filters, edit: string) {
    DistinctHoles();
    KeepSetAttr(f, Field(SetAttrCommand(edit), SetAttrTemplate, "attribute"))
  }

  predicate KeepAttrEdit(f: Filters, edit: string) {
    DistinctHoles();
    HasType(f.scene, AttrEditNode(Field(AttrEditCommand(edit), ObjectTemplate, "object")))
  }

  /** Whether `export_refedits` writes `edit` into the tree. */
  predicate Keep(f: Filters, edit: string) {
    match KindOf(edit)
    case Connection => KeepConnectionEdit(f, edit)
    case SetAttr => KeepSetAttrEdit(f, edit)
    case AttrEdit => KeepAttrEdit(f, edit)
    case _ => false
  }

  /** An edit that starts like `prefix` has its command word there. */
  lemma {:induction false} StartsWithFront(c: string, rest: string, prefix: string)
    requires StartsWith(c, prefix)
    ensures StartsWith(c + rest, prefix)
  {
    assert (c + rest)[..|prefix|] == c[..|prefix|];
  }

  lemma {:induction false} SetAttrKind(edit: string)
    requires StartsWith(edit, "setAttr")
    ensures KindOf(edit) == SetAttr
  {
    assert edit[0] == "setAttr"[0] == 's';
  }

  lemma {:induction false} AttrEditKind(edit: string)
    requires StartsWith(edit, "addAttr") || StartsWith(edit, "deleteAttr")
    ensures KindOf(edit) == AttrEdit
  {
    if StartsWith(edit, "addAttr") {
      assert edit[0] == "addAttr"[0] == 'a';
    } else {
      assert edit[1] == "deleteAttr"[1] == 'e';
      assert edit[0] == 'd';
    }
  }

  /** A connection edit without flags, `c "s" "d"`, is kept exactly when its
      two plugs pass the connection rule. */
  lemma {:induction false} KeepConnectionIff(f: Filters, c: string, s: string, d: string)
    requires StartsWith(c, "connectAttr") || StartsWith(c, "disconnectAttr")
    requires '\n' !in c && '"' !in c
    requires s != [] && ' ' !in s && '\n' !in s && '"' !in s
    requires d != [] && ' ' !in d && '\n' !in d && '"' !in d
    requires '-' !in c + " \"" + s + "\" \"" + d + "\""
    ensures Keep(f, c + " \"" + s + "\" \"" + d + "\"") <==> KeepConnection(f, s, d)
  {
    var edit := c + " \"" + s + "\" \"" + d + "\"";
    if StartsWith(c, "connectAttr") {
      StartsWithFront(c, edit[|c|..], "connectAttr");
    } else {
      StartsWithFront(c, edit[|c|..], "disconnectAttr");
    }
    assert c + edit[|c|..] == edit;
    assert KindOf(edit) == Connection;
    DashFlagsNone(edit);
    assert ConnectionCommand(edit) == edit;
    ConnectFields(c, s, d);
    ConnectHoles();
    assert Field(edit, ConnectTemplate, "source") == s by {
      assert HoleNames(ConnectTemplate)[1] == "source";
    }
    assert Field(edit, ConnectTemplate, "destination") == d by {
      assert HoleNames(ConnectTemplate)[2] == "destination";
    }
  }

  /** Tidy text has no line break. */
  lemma {:induction false} TidyNoNewline(s: string)
    requires Tidy(s)
    ensures '\n' !in s
  {
    if '\n' in s {
      var i :| 0 <= i < |s| && s[i] == '\n';
      assert IsSpace(s[i]);
    }
  }

  /** Such an edit is its own `setAttr` command and its fields match. */
  lemma {:induction false} SetAttrText(c: string, a: string, v: string)
    requires c != [] && a != [] && v != [] && ' ' !in a && ' ' !in v
    requires Tidy(c + " " + a + " " + v) && '-' !in c + " " + a + " " + v
    ensures SetAttrCommand(c + " " + a + " " + v) == c + " " + a + " " + v
    ensures var text := c + " " + a + " " + v;
      Search(text, SetAttrTemplate) == Some(Found(0, Match(|text|, [c, a, v])))
  {
    var edit := c + " " + a + " " + v;
    DashFlagsNone(edit);
    CollapseTidy(edit);
    TidyNoNewline(edit);
    assert '\n' !in c && '\n' !in a && '\n' !in v by {
      assert forall x :: x in c || x in a || x in v ==> x in edit;
    }
    SetAttrFields(c, a, v);
  }

  /** A `setAttr` edit without flags and with single spaces, `c a v`, is kept
      exactly when its plug `a` passes the `setAttr` rule. */
  lemma {:induction false} KeepSetAttrIff(f: Filters, c: string, a: string, v: string)
    requires StartsWith(c, "setAttr")
    requires a != [] && v != [] && ' ' !in a && ' ' !in v
    requires Tidy(c + " " + a + " " + v) && '-' !in c + " " + a + " " + v
    ensures Keep(f, c + " " + a + " " + v) <==> KeepSetAttr(f, a)
  {
    var edit := c + " " + a + " " + v;
    StartsWithFront(c, edit[|c|..], "setAttr");
    assert c + edit[|c|..] == edit;
    SetAttrKind(edit);
    SetAttrText(c, a, v);
    SetAttrHoles();
    assert Field(edit, SetAttrTemplate, "attribute") == a by {
      assert HoleNames(SetAttrTemplate)[1] == "attribute";
    }
  }

  /** Such an edit is its own `addAttr`/`deleteAttr` command, its object
      field is `o`, so the rule asks about the node that `o` names. */
  lemma {:induction false} AttrEditText(f: Filters, c: string, o: string)
    requires c != [] && o != [] && ' ' !in o
    requires Tidy(c + " " + o) && '-' !in c + " " + o
    ensures AttrEditCommand(c + " " + o) == c + " " + o
    ensures KeepAttrEdit(f, c + " " + o) <==> HasType(f.scene, AttrEditNode(o))
  {
    var edit := c + " " + o;
    DashFlagsWithValueNone(edit);
    CollapseTidy(edit);
    assert AttrEditCommand(edit) == edit;
    TidyNoNewline(edit);
    assert '\n' !in c && '\n' !in o by {
      assert forall x :: x in c || x in o ==> x in edit;
    }
    ObjectFields(c, o);
    ObjectHoles();
    DistinctHoles();
    assert Field(edit, ObjectTemplate, "object") == o by {
      assert HoleNames(ObjectTemplate)[1] == "object";
    }
  }

  /** An edit whose command word is `addAttr` or `deleteAttr` is of that kind. */
  lemma {:induction false} AttrEditKindOf(c: string, rest: string)
    requires StartsWith(c, "addAttr") || StartsWith(c, "deleteAttr")
    ensures KindOf(c + rest) == AttrEdit
  {
    if StartsWith(c, "addAttr") {
      StartsWithFront(c, rest, "addAttr");
    } else {
      StartsWithFront(c, rest, "deleteAttr");
    }
    AttrEditKind(c + rest);
  }

  /** An `addAttr`/`deleteAttr` edit without flags, `c o`, is kept exactly
      when the node that `o` names exists and has a type. */
  lemma {:induction false} KeepAttrEditIff(f: Filters, c: string, o: string)
    requires StartsWith(c, "addAttr") || StartsWith(c, "deleteAttr")
    requires o != [] && ' ' !in o
    requires Tidy(c + " " + o) && '-' !in c + " " + o
    ensures Keep(f, c + " " + o) <==> HasType(f.scene, AttrEditNode(o))
  {
    AttrEditKindOf(c, " " + o);
    assert c + (" " + o) == c + " " + o;
    AttrEditText(f, c, o);
  }

  // ---------------------------------------------------------------------
  // the tree export_refedits builds

  /** A child of the `ReferenceEdits` root: its tag and the `command`
      attributes of its `edit` children, in order. */
  datatype EditGroup = EditGroup(tag: string, commands: seq<string>)

  function Tags(gs: seq<EditGroup>): (r: seq<string>)
    ensures |r| == |gs| && forall i :: 0 <= i < |gs| ==> r[i] == gs[i].tag
  {
    if gs == [] then [] else [gs[0].tag] + Tags(gs[1..])
  }

  /** `editTypeList.index(tag)` when the tag is among the children, their
      number otherwise. */
  function GroupIndex(gs: seq<EditGroup>, tag: string): (r: nat)
    ensures r <= |gs|
    ensures r < |gs| ==> gs[r].tag == tag
    ensures forall k :: 0 <= k < r ==> gs[k].tag != tag
  {
    if gs == [] || gs[0].tag == tag then 0 else 1 + GroupIndex(gs[1..], tag)
  }

  /** One turn of the export loop: find the child for `tag` or create it at
      the end, then append `edit` to it when the edit is kept. */
  function Visit(gs: seq<EditGroup>, tag: string, edit: string, keep: bool): seq<EditGroup> {
    var i := GroupIndex(gs, tag);
    var gs' := if i < |gs| then gs else gs + [EditGroup(tag, [])];
    if keep then gs'[i := EditGroup(tag, gs'[i].commands + [edit])] else gs'
  }

  /** The export loop is stated for any way of naming an edit's tag and of
      deciding whether it is kept; `Export` below supplies `FirstToken` and
      `Keep`. */
  type Tagger = string -> Option<string>
  type Keeper = string -> bool

  /** Every edit has a tag. */
  predicate AllTagged(tagOf: Tagger, edits: seq<string>) {
    forall i :: 0 <= i < |edits| ==> tagOf(edits[i]).Some?
  }

  /** The tags of the edits, in order. */
  function EditTags(tagOf: Tagger, edits: seq<string>): (r: seq<string>)
    requires AllTagged(tagOf, edits)
    ensures |r| == |edits| && forall i :: 0 <= i < |edits| ==> tagOf(edits[i]) == Some(r[i])
  {
    if edits == [] then []
    else EditTags(tagOf, edits[..|edits| - 1]) + [tagOf(edits[|edits| - 1]).value]
  }

  /** The children after the loop has visited `edits` in order. */
  function Grouped(tagOf: Tagger, keep: Keeper, edits: seq<string>): seq<EditGroup>
    requires AllTagged(tagOf, edits)
  {
    if edits == [] then []
    else
      var e := edits[|edits| - 1];
      Visit(Grouped(tagOf, keep, edits[..|edits| - 1]), tagOf(e).value, e, keep(e))
  }

  /** One more edit is one more visit. */
  lemma {:induction false} GroupedStep(tagOf: Tagger, keep: Keeper, edits: seq<string>, i: nat)
    requires i < |edits| && AllTagged(tagOf, edits[..i]) && tagOf(edits[i]).Some?
    ensures AllTagged(tagOf, edits[..i + 1])
    ensures Grouped(tagOf, keep, edits[..i + 1]) ==
      Visit(Grouped(tagOf, keep, edits[..i]), tagOf(edits[i]).value, edits[i], keep(edits[i]))
  {
    var pre := edits[..i + 1];
    assert pre[..i] == edits[..i] && pre[i] == edits[i];
    assert AllTagged(tagOf, pre) by {
      forall k | 0 <= k < |pre| ensures tagOf(pre[k]).Some? {
        if k < i { assert pre[k] == edits[..i][k]; }
      }
    }
  }

  /** Reference definition of a child's contents: the kept edits whose tag
      is `tag`, in the order visited. */
  function KeptWithTag(tagOf: Tagger, keep: Keeper, edits: seq<string>, tag: string): seq<string> {
    if edits == [] then []
    else
      var e := edits[|edits| - 1];
      KeptWithTag(tagOf, keep, edits[..|edits| - 1], tag) + (if tagOf(e) == Some(tag) && keep(e) then [e] else [])
  }

  /** The reference definition filters: it holds the edits with that tag
      that are kept, and no others. */
  lemma {:induction false} KeptWithTagMembers(tagOf: Tagger, keep: Keeper, edits: seq<string>, tag: string)
    ensures forall e :: e in KeptWithTag(tagOf, keep, edits, tag) <==>
      e in edits && tagOf(e) == Some(tag) && keep(e)
    decreases |edits|
  {
    if edits != [] {
      var e := edits[|edits| - 1];
      var init := edits[..|edits| - 1];
      assert edits == init + [e];
      KeptWithTagMembers(tagOf, keep, init, tag);
    }
  }

  lemma {:induction false} VisitTags(gs: seq<EditGroup>, tag: string, edit: string, keep: bool)
    ensures Tags(Visit(gs, tag, edit, keep)) ==
      if tag in Tags(gs) then Tags(gs) else Tags(gs) + [tag]
  {
    var i := GroupIndex(gs, tag);
    assert tag in Tags(gs) <==> i < |gs| by {
      if tag in Tags(gs) {
        var k :| 0 <= k < |gs| && Tags(gs)[k] == tag;
      }
    }
  }

  /** A child gains the edit exactly when it is the child for `tag` and the
      edit is kept; a new child starts empty. */
  lemma {:induction false} VisitCommands(gs: seq<EditGroup>, tag: string, edit: string, keep: bool)
    requires NoDup(Tags(gs))
    ensures var r := Visit(gs, tag, edit, keep);
      forall j :: 0 <= j < |r| ==>
        r[j].commands == (if j < |gs| then gs[j].commands else []) +
                         (if r[j].tag == tag && keep then [edit] else [])
  {
    var i := GroupIndex(gs, tag);
    var r := Visit(gs, tag, edit, keep);
    forall j | 0 <= j < |r|
      ensures r[j].commands == (if j < |gs| then gs[j].commands else []) +
                               (if r[j].tag == tag && keep then [edit] else [])
    {
      if j < |gs| && j != i {
        assert r[j] == gs[j];
        if gs[j].tag == tag {
          assert Tags(gs)[j] == Tags(gs)[i];
        }
      }
    }
  }

  /** The children appear in the order in which their tags first occur. */
  lemma {:induction false} GroupedTags(tagOf: Tagger, keep: Keeper, edits: seq<string>)
    requires AllTagged(tagOf, edits)
    ensures Tags(Grouped(tagOf, keep, edits)) == AddUnseen([], EditTags(tagOf, edits))
    decreases |edits|
  {
    if edits != [] {
      var e := edits[|edits| - 1];
      var init := edits[..|edits| - 1];
      GroupedTags(tagOf, keep, init);
      VisitTags(Grouped(tagOf, keep, init), tagOf(e).value, e, keep(e));
      AddUnseenSnoc([], EditTags(tagOf, init), tagOf(e).value);
    }
  }

  /** No tag has two children, and every tag has one. */
  lemma {:induction false} GroupedDistinct(tagOf: Tagger, keep: Keeper, edits: seq<string>)
    requires AllTagged(tagOf, edits)
    ensures NoDup(Tags(Grouped(tagOf, keep, edits)))
    ensures forall t :: t in Tags(Grouped(tagOf, keep, edits)) <==> t in EditTags(tagOf, edits)
  {
    GroupedTags(tagOf, keep, edits);
    AddUnseenNoDup([], EditTags(tagOf, edits));
    AddUnseenContents([], EditTags(tagOf, edits));
  }

  lemma {:induction false} KeptAbsent(tagOf: Tagger, keep: Keeper, edits: seq<string>, tag: string)
    requires AllTagged(tagOf, edits) && tag !in EditTags(tagOf, edits)
    ensures KeptWithTag(tagOf, keep, edits, tag) == []
    decreases |edits|
  {
    if edits != [] {
      var init := edits[..|edits| - 1];
      assert AllTagged(tagOf, init) by {
        forall i | 0 <= i < |init| ensures tagOf(init[i]).Some? {
          assert init[i] == edits[i];
        }
      }
      assert EditTags(tagOf, edits) == EditTags(tagOf, init) + [tagOf(edits[|edits| - 1]).value];
      KeptAbsent(tagOf, keep, init, tag);
    }
  }


  /** Each child holds exactly the kept edits with its tag, in visiting order. */
  lemma {:induction false} GroupedCommands(tagOf: Tagger, keep: Keeper, edits: seq<string>)
    requires AllTagged(tagOf, edits)
    ensures forall j :: 0 <= j < |Grouped(tagOf, keep, edits)| ==>
      Grouped(tagOf, keep, edits)[j].commands == KeptWithTag(tagOf, keep, edits, Grouped(tagOf, keep, edits)[j].tag)
    decreases |edits|
  {
    if edits != [] {
      var e := edits[|edits| - 1];
      var init := edits[..|edits| - 1];
      var g0 := Grouped(tagOf, keep, init);
      var tag := tagOf(e).value;
      GroupedCommands(tagOf, keep, init);
      GroupedDistinct(tagOf, keep, init);
      VisitCommands(g0, tag, e, keep(e));
      VisitTags(g0, tag, e, keep(e));
      var gs := Grouped(tagOf, keep, edits);
      assert gs == Visit(g0, tag, e, keep(e));
      forall j | 0 <= j < |gs| ensures gs[j].commands == KeptWithTag(tagOf, keep, edits, gs[j].tag) {
        var t := gs[j].tag;
        var extra := if tagOf(e) == Some(t) && keep(e) then [e] else [];
        assert KeptWithTag(tagOf, keep, edits, t) == KeptWithTag(tagOf, keep, init, t) + extra;
        assert extra == if t == tag && keep(e) then [e] else [];
        if j >= |g0| {
          assert Tags(gs)[j] == tag;
          assert t == tag;
          KeptAbsent(tagOf, keep, init, tag);
          assert gs[j].commands == [] + extra;
          assert KeptWithTag(tagOf, keep, init, t) == [];
        } else {
          assert Tags(gs)[j] == Tags(g0)[j];
          assert gs[j].commands == g0[j].commands + extra;
          assert g0[j].tag == t;
          assert g0[j].commands == KeptWithTag(tagOf, keep, init, t);
        }
      }
    }
  }

  /** The first edit, in order, without a tag: where `findall(...)[0]`
      raises. */
  function FirstUntagged(tagOf: Tagger, edits: seq<string>): (r: Option<string>)
    ensures r.None? <==> AllTagged(tagOf, edits)
    ensures r.Some? ==> r.value in edits && tagOf(r.value).None?
  {
    if edits == [] then None
    else if tagOf(edits[0]).None? then Some(edits[0])
    else
      var r := FirstUntagged(tagOf, edits[1..]);
      assert AllTagged(tagOf, edits[1..]) ==> AllTagged(tagOf, edits) by {
        if AllTagged(tagOf, edits[1..]) {
          forall i | 0 < i < |edits| ensures tagOf(edits[i]).Some? {
            assert edits[i] == edits[1..][i - 1];
          }
        }
      }
      r
  }

  lemma {:induction false} FirstUntaggedAt(tagOf: Tagger, edits: seq<string>, i: nat)
    requires i < |edits| && AllTagged(tagOf, edits[..i]) && tagOf(edits[i]).None?
    ensures FirstUntagged(tagOf, edits) == Some(edits[i])
    decreases i
  {
    if i > 0 {
      assert edits[0] == edits[..i][0];
      var rest := edits[1..];
      assert rest[..i - 1] == edits[1..i];
      assert AllTagged(tagOf, rest[..i - 1]) by {
        forall k | 0 <= k < i - 1 ensures tagOf(edits[1..i][k]).Some? {
          assert edits[1..i][k] == edits[..i][k + 1];
        }
      }
      FirstUntaggedAt(tagOf, rest, i - 1);
    }
  }

  // ---------------------------------------------------------------------
  // export_refedits

  /** What the file system says about `os.path.dirname(xmlPath)`. */
  datatype ExportOutcome =
    | NoPath                 // `xmlPath` is empty: nothing happens
    | MakeDirsRaised         // the path has no directory part: `os.makedirs('')` raises, whatever exists
    | NotWritten             // the directory part exists but is no directory
    | TagRaised(edit: string)  // an edit without a token: `IndexError`
    | Written(fileName: string, groups: seq<EditGroup>)

  /** `re.findall(r'\S+', edit)[0]`, where it exists. */
  const TagOf: Tagger := FirstToken

  /** The keep rule of `export_refedits` for given filters. */
  function KeepWith(f: Filters): Keeper {
    (e: string) => Keep(f, e)
  }

  /** What `export_refedits` ends in: the tree it writes, or why it writes
      none. Refusals come in the order of the source's checks; the tree
      holds the scene name and the children built over the sorted edits. */
  function Export(xmlPath: string, refEdits: seq<string>, f: Filters, dir: DirState, sceneName: string)
    : (r: ExportOutcome)
    ensures r.NoPath? <==> xmlPath == ""
    ensures r.MakeDirsRaised? <==> xmlPath != "" && Dirname(xmlPath) == ""
    ensures r.NotWritten? <==> xmlPath != "" && Dirname(xmlPath) != "" && dir == NotDirectory
    ensures r.TagRaised? ==> r.edit in refEdits && FirstToken(r.edit).None?
    ensures r.Written? ==> r.fileName == sceneName && forall e :: e in refEdits ==> FirstToken(e).Some?
    ensures r.Written? ==>
      var sorted := SortStrings(refEdits);
      AllTagged(TagOf, sorted) && r.groups == Grouped(TagOf, KeepWith(f), sorted)
  {
    if xmlPath == "" then NoPath
    else if Dirname(xmlPath) == "" then MakeDirsRaised
    else if dir == NotDirectory then NotWritten
    else
      var sorted := SortStrings(refEdits);
      SortedSameElements(refEdits);
      var r := Build(TagOf, KeepWith(f), sorted, sceneName);
      assert r.Written? ==> forall e :: e in refEdits ==> FirstToken(e).Some? by {
        if r.Written? {
          forall e | e in refEdits ensures FirstToken(e).Some? {
            var k :| 0 <= k < |sorted| && sorted[k] == e;
          }
        }
      }
      r
  }

  /** The loop over the already sorted edits. */
  function Build(tagOf: Tagger, keep: Keeper, sorted: seq<string>, sceneName: string): (r: ExportOutcome)
    ensures r.TagRaised? || r.Written?
    ensures r.TagRaised? ==> r.edit in sorted && tagOf(r.edit).None?
    ensures r.Written? <==> AllTagged(tagOf, sorted)
  {
    match FirstUntagged(tagOf, sorted)
    case Some(e) => TagRaised(e)
    case None => Written(sceneName, Grouped(tagOf, keep, sorted))
  }

  lemma {:induction false} SortedSameElements(xs: seq<string>)
    ensures forall e :: e in SortStrings(xs) <==> e in xs
  {
    SortStringsCorrect(xs);
    assert forall e :: e in SortStrings(xs) <==> e in multiset(SortStrings(xs));
  }

  /** The facts about the loop's children, for edits whose elements are
      those of `xs`. */
  lemma {:induction false} GroupedTree(tagOf: Tagger, keep: Keeper, edits: seq<string>, xs: seq<string>)
    requires AllTagged(tagOf, edits) && forall e :: e in edits <==> e in xs
    ensures Tags(Grouped(tagOf, keep, edits)) == AddUnseen([], EditTags(tagOf, edits))
    ensures NoDup(Tags(Grouped(tagOf, keep, edits)))
    ensures forall t :: t in Tags(Grouped(tagOf, keep, edits)) <==> exists e :: e in xs && tagOf(e) == Some(t)
    ensures forall j :: 0 <= j < |Grouped(tagOf, keep, edits)| ==>
      Grouped(tagOf, keep, edits)[j].commands == KeptWithTag(tagOf, keep, edits, Grouped(tagOf, keep, edits)[j].tag)
  {
    GroupedTags(tagOf, keep, edits);
    GroupedDistinct(tagOf, keep, edits);
    GroupedCommands(tagOf, keep, edits);
    var tags := EditTags(tagOf, edits);
    forall t ensures t in tags <==> exists e :: e in xs && tagOf(e) == Some(t) {
      if t in tags {
        var k :| 0 <= k < |edits| && tags[k] == t;
        assert edits[k] in xs && tagOf(edits[k]) == Some(t);
      }
      if exists e :: e in xs && tagOf(e) == Some(t) {
        var e :| e in xs && tagOf(e) == Some(t);
        var k :| 0 <= k < |edits| && edits[k] == e;
        assert tags[k] == t;
      }
    }
  }

  /** The written tree: one child per distinct tag, in the order the tags
      first occur among the sorted edits, each child holding exactly the
      kept edits with that tag, in sorted order. */
  lemma {:induction false} ExportedTree(xmlPath: string, refEdits: seq<string>, f: Filters, dir: DirState,
                                        sceneName: string, groups: seq<EditGroup>)
    requires Export(xmlPath, refEdits, f, dir, sceneName) == Written(sceneName, groups)
    ensures AllTagged(TagOf, SortStrings(refEdits))
    ensures Tags(groups) == AddUnseen([], EditTags(TagOf, SortStrings(refEdits)))
    ensures NoDup(Tags(groups))
    ensures forall t :: t in Tags(groups) <==> exists e :: e in refEdits && FirstToken(e) == Some(t)
    ensures forall j :: 0 <= j < |groups| ==>
      groups[j].commands == KeptWithTag(TagOf, KeepWith(f), SortStrings(refEdits), groups[j].tag)
  {
    SortedSameElements(refEdits);
    GroupedTree(TagOf, KeepWith(f), SortStrings(refEdits), refEdits);
  }

  /** The `ReferenceEdits` root element while the export loop builds it. */
  class EditTree {
    var fileName: string
    var groups: seq<EditGroup>

    constructor (fileName: string)
      ensures this.fileName == fileName && groups == []
    {
      this.fileName := fileName;
      groups := [];
    }

    /** The child for `tag`, created at the end on the tag's first appearance. */
    method FindOrCreate(tag: string) returns (i: nat)
      modifies this
      ensures i == GroupIndex(old(groups), tag)
      ensures groups == if i < |old(groups)| then old(groups) else old(groups) + [EditGroup(tag, [])]
      ensures i < |groups| && fileName == old(fileName)
    {
      i := 0;
      while i < |groups|
        invariant i <= |groups|
        invariant forall k :: 0 <= k < i ==> groups[k].tag != tag
      {
        if groups[i].tag == tag {
          return;
        }
        i := i + 1;
      }
      groups := groups + [EditGroup(tag, [])];
    }

    /** `ET.SubElement(editType, "edit")` with its `command` attribute. */
    method Append(i: nat, edit: string)
      requires i < |groups|
      modifies this
      ensures groups == old(groups)[i := EditGroup(old(groups)[i].tag, old(groups)[i].commands + [edit])]
      ensures fileName == old(fileName)
    {
      groups := groups[i := EditGroup(groups[i].tag, groups[i].commands + [edit])];
    }

    /** One visit of the export loop: find or create the child for `tag`,
        and add the edit to it when it is kept. */
    method VisitEdit(tag: string, edit: string, kept: bool)
      modifies this
      ensures groups == Visit(old(groups), tag, edit, kept)
      ensures fileName == old(fileName)
    {
      var g := FindOrCreate(tag);
      if kept {
        Append(g, edit);
      }
    }
  }

  /** `export_refedits(xmlPath, refEdits, excludeAttr, excludeType)`: the
      loop over the sorted edits, building the tree child by child. */
  method ExportRefEdits(xmlPath: string, refEdits: seq<string>, f: Filters, dir: DirState, sceneName: string)
    returns (out: ExportOutcome)
    ensures out == Export(xmlPath, refEdits, f, dir, sceneName)
  {
    if xmlPath == "" {
      return NoPath;
    }
    if Dirname(xmlPath) == "" {
      // `os.path.exists('')` is false, so `os.makedirs('')` runs and raises
      return MakeDirsRaised;
    }
    var state := dir;
    if dir == Missing {
      state := Directory;
    }
    if state != Directory {
      return NotWritten;
    }
    out := BuildTree(TagOf, KeepWith(f), SortStrings(refEdits), sceneName);
  }

  /** The loop of `export_refedits` over the sorted edits. */
  method BuildTree(tagOf: Tagger, keep: Keeper, edits: seq<string>, sceneName: string)
    returns (out: ExportOutcome)
    ensures out == Build(tagOf, keep, edits, sceneName)
  {
    var root := new EditTree(sceneName);
    var i := 0;
    while i < |edits|
      invariant i <= |edits| && AllTagged(tagOf, edits[..i])
      invariant root.groups == Grouped(tagOf, keep, edits[..i])
      invariant root.fileName == sceneName
    {
      var edit := edits[i];
      var tag := tagOf(edit);
      if tag.None? {
        FirstUntaggedAt(tagOf, edits, i);
        return TagRaised(edit);
      }
      GroupedStep(tagOf, keep, edits, i);
      root.VisitEdit(tag.value, edit, keep(edit));
      i := i + 1;
    }
    assert edits[..i] == edits;
    return Written(root.fileName, root.groups);
  }

  // ---------------------------------------------------------------------
  // get_refedits

  /** The module-level `refEdits` list, which outlives every call. */
  class RefEditLog {
    var refEdits: seq<string>

    constructor ()
      ensures refEdits == []
    {
      refEdits := [];
    }

    /** `get_refedits(masterReference)`, given the edit strings of each
        child reference file in the order `referenceQuery` lists them: every
        edit not yet in the list is appended, and the list is returned. */
    method GetRefEdits(childEdits: seq<seq<string>>) returns (r: seq<string>)
      modifies this
      ensures refEdits == AddUnseen(old(refEdits), Flatten(childEdits))
      ensures r == refEdits
    {
      var i := 0;
      while i < |childEdits|
        invariant i <= |childEdits|
        invariant refEdits == AddUnseen(old(refEdits), Flatten(childEdits[..i]))
      {
        RecordChild(childEdits[i]);
        AddUnseenAppend(old(refEdits), Flatten(childEdits[..i]), childEdits[i]);
        FlattenSnoc(childEdits[..i], childEdits[i]);
        assert childEdits[..i + 1] == childEdits[..i] + [childEdits[i]];
        i := i + 1;
      }
      assert childEdits[..i] == childEdits;
      r := refEdits;
    }

    /** The inner loop of `get_refedits` over one child's edits. */
    method RecordChild(edits: seq<string>)
      modifies this
      ensures refEdits == AddUnseen(old(refEdits), edits)
    {
      var j := 0;
      while j < |edits|
        invariant j <= |edits|
        invariant refEdits == AddUnseen(old(refEdits), edits[..j])
      {
        AddUnseenSnoc(old(refEdits), edits[..j], edits[j]);
        assert edits[..j] + [edits[j]] == edits[..j + 1];
        if edits[j] !in refEdits {
          refEdits := refEdits + [edits[j]];
        }
        j := j + 1;
      }
      assert edits[..j] == edits;
    }
  }

  /** What a call leaves in the list: the earlier list unchanged at the
      front, every edit of the call present, nothing else added, no edit
      twice, and the new ones in the order they were first seen. */
  lemma {:induction false} LogAfterCall(before: seq<string>, childEdits: seq<seq<string>>)
    requires NoDup(before)
    ensures |before| <= |AddUnseen(before, Flatten(childEdits))|
    ensures AddUnseen(before, Flatten(childEdits))[..|before|] == before
    ensures forall e :: e in AddUnseen(before, Flatten(childEdits)) <==>
      e in before || exists k :: 0 <= k < |childEdits| && e in childEdits[k]
    ensures NoDup(AddUnseen(before, Flatten(childEdits)))
    ensures forall i, j :: |before| <= i < j < |AddUnseen(before, Flatten(childEdits))| ==>
      && AddUnseen(before, Flatten(childEdits))[i] in Flatten(childEdits)
      && AddUnseen(before, Flatten(childEdits))[j] in Flatten(childEdits)
      && FirstIndex(Flatten(childEdits), AddUnseen(before, Flatten(childEdits))[i]) <
         FirstIndex(Flatten(childEdits), AddUnseen(before, Flatten(childEdits))[j])
  {
    AddUnseenContents(before, Flatten(childEdits));
    AddUnseenNoDup(before, Flatten(childEdits));
    AddUnseenFirstSeenOrder(before, Flatten(childEdits));
  }

  // ---------------------------------------------------------------------
  // import_refedits

  /** A child of the stored root: its tag and, for each of its own
      children, the `command` attribute if it has one. */
  datatype StoredGroup = StoredGroup(tag: string, commands: seq<Option<string>>)

  datatype ImportOutcome =
    | NotRun                      // empty path, or no such file
    | InvalidXml(message: string) // the file does not parse
    | Ran(dispatched: seq<Option<string>>, failed: seq<Option<string>>)

  /** The commands handed to `mel.eval`, in document order: those of every
      child whose tag is in `types`. */
  function Dispatched(doc: seq<StoredGroup>, types: seq<string>): seq<Option<string>> {
    if doc == [] then []
    else
      var g := doc[|doc| - 1];
      Dispatched(doc[..|doc| - 1], types) + (if g.tag in types then g.commands else [])
  }

  /** The dispatched commands for which `mel.eval` raises. */
  function Failing(cmds: seq<Option<string>>, fails: set<Option<string>>): (r: seq<Option<string>>)
    ensures |r| <= |cmds|
  {
    if cmds == [] then []
    else
      var c := cmds[|cmds| - 1];
      Failing(cmds[..|cmds| - 1], fails) + Reported(c, fails)
  }

  /** What one dispatched command adds to the report: itself when it raises. */
  function Reported(c: Option<string>, fails: set<Option<string>>): seq<Option<string>> {
    if c in fails then [c] else []
  }

  /** The commands reported are exactly the dispatched ones that raise. */
  lemma {:induction false} FailingMembers(cmds: seq<Option<string>>, fails: set<Option<string>>)
    ensures forall c :: c in Failing(cmds, fails) <==> c in cmds && c in fails
    decreases |cmds|
  {
    if cmds != [] {
      var c := cmds[|cmds| - 1];
      var init := cmds[..|cmds| - 1];
      assert cmds == init + [c];
      FailingMembers(init, fails);
    }
  }

  /** What `import_refedits` does: nothing without a file, the exception
      for a file that does not parse, and otherwise every selected command
      dispatched, a raising one not stopping the rest. */
  function Import(xmlPath: string, fileExists: bool, parsed: Option<seq<StoredGroup>>, types: seq<string>,
                  fails: set<Option<string>>): (r: ImportOutcome)
    ensures r.NotRun? <==> xmlPath == "" || !fileExists
    ensures r.InvalidXml? <==> xmlPath != "" && fileExists && parsed.None?
    ensures r.InvalidXml? ==> r.message == xmlPath + " is not a valid xml file"
    ensures r.Ran? ==> r.dispatched == Dispatched(parsed.value, types)
    ensures r.Ran? ==> forall c :: c in r.failed <==> c in r.dispatched && c in fails
  {
    if xmlPath == "" || !fileExists then NotRun
    else if parsed.None? then InvalidXml(xmlPath + " is not a valid xml file")
    else
      var cmds := Dispatched(parsed.value, types);
      FailingMembers(cmds, fails);
      Ran(cmds, Failing(cmds, fails))
  }

  /** One more dispatched command: it is reported exactly when it raises. */
  lemma {:induction false} FailingSnoc(cmds: seq<Option<string>>, c: Option<string>, fails: set<Option<string>>)
    ensures Failing(cmds + [c], fails) == Failing(cmds, fails) + Reported(c, fails)
  {
    assert (cmds + [c])[..|cmds|] == cmds;
  }

  /** `import_refedits(xmlPath, type)`: the loop over the children and their
      commands, swallowing each failure. */
  method ImportRefEdits(xmlPath: string, fileExists: bool, parsed: Option<seq<StoredGroup>>,
                        types: seq<string>, fails: set<Option<string>>)
    returns (out: ImportOutcome)
    ensures out == Import(xmlPath, fileExists, parsed, types, fails)
  {
    if xmlPath == "" || !fileExists {
      return NotRun;
    }
    if parsed.None? {
      return InvalidXml(xmlPath + " is not a valid xml file");
    }
    var doc := parsed.value;
    var dispatched: seq<Option<string>> := [];
    var failed: seq<Option<string>> := [];
    var i := 0;
    while i < |doc|
      invariant i <= |doc|
      invariant dispatched == Dispatched(doc[..i], types)
      invariant failed == Failing(dispatched, fails)
    {
      var node := doc[i];
      assert doc[..i + 1][..i] == doc[..i] && doc[..i + 1][i] == node;
      if node.tag in types {
        dispatched, failed := DispatchAll(dispatched, failed, node.commands, fails);
      }
      i := i + 1;
    }
    assert doc[..i] == doc;
    return Ran(dispatched, failed);
  }

  /** One more command of the child: the dispatched list and the report
      each grow by that command's part. */
  lemma {:induction false} DispatchStep(dispatched: seq<Option<string>>, commands: seq<Option<string>>, j: nat,
                                        fails: set<Option<string>>)
    requires j < |commands|
    ensures dispatched + commands[..j + 1] == (dispatched + commands[..j]) + [commands[j]]
    ensures Failing(dispatched + commands[..j + 1], fails)
         == Failing(dispatched + commands[..j], fails) + Reported(commands[j], fails)
  {
    assert commands[..j + 1] == commands[..j] + [commands[j]];
    FailingSnoc(dispatched + commands[..j], commands[j], fails);
  }

  /** The inner loop of `import_refedits`: every command of one child is
      handed to `mel.eval`, and a raising one is reported and skipped. */
  method DispatchAll(dispatched: seq<Option<string>>, failed: seq<Option<string>>,
                     commands: seq<Option<string>>, fails: set<Option<string>>)
    returns (dispatched': seq<Option<string>>, failed': seq<Option<string>>)
    requires failed == Failing(dispatched, fails)
    ensures dispatched' == dispatched + commands
    ensures failed' == Failing(dispatched', fails)
  {
    dispatched', failed' := dispatched, failed;
    var j := 0;
    assert dispatched + commands[..0] == dispatched;
    while j < |commands|
      invariant j <= |commands|
      invariant dispatched' == dispatched + commands[..j]
      invariant failed' == Failing(dispatched + commands[..j], fails)
    {
      var c := commands[j];
      DispatchStep(dispatched, commands, j, fails);
      if c in fails {
        failed' := failed' + [c];
      }
      dispatched' := dispatched' + [c];
      j := j + 1;
    }
    assert commands[..j] == commands;
  }

  /** The stored form of a written tree. */
  function Stored(gs: seq<EditGroup>): (r: seq<StoredGroup>)
    ensures |r| == |gs|
    ensures forall i :: 0 <= i < |gs| ==> r[i].tag == gs[i].tag
    ensures forall i :: 0 <= i < |gs| ==> |r[i].commands| == |gs[i].commands|
    ensures forall i, k :: 0 <= i < |gs| && 0 <= k < |gs[i].commands| ==>
      r[i].commands[k] == Some(gs[i].commands[k])
  {
    if gs == [] then []
    else
      var g := gs[|gs| - 1];
      Stored(gs[..|gs| - 1]) + [StoredGroup(g.tag, seq(|g.commands|, k requires 0 <= k < |g.commands| => Some(g.commands[k])))]
  }

  lemma {:induction false} DispatchedMembers(doc: seq<StoredGroup>, types: seq<string>)
    ensures forall c :: c in Dispatched(doc, types) <==>
      exists i :: 0 <= i < |doc| && doc[i].tag in types && c in doc[i].commands
    decreases |doc|
  {
    if doc != [] {
      var init := doc[..|doc| - 1];
      DispatchedMembers(init, types);
      forall c ensures c in Dispatched(doc, types) <==>
        exists i :: 0 <= i < |doc| && doc[i].tag in types && c in doc[i].commands
      {
        if exists i :: 0 <= i < |doc| && doc[i].tag in types && c in doc[i].commands {
          var i :| 0 <= i < |doc| && doc[i].tag in types && c in doc[i].commands;
          if i < |init| {
            assert init[i] == doc[i];
          }
        }
        if c in Dispatched(init, types) {
          var i :| 0 <= i < |init| && init[i].tag in types && c in init[i].commands;
          assert doc[i] == init[i];
        }
      }
    }
  }

  /** The stored commands of a child are its kept edits, each present. */
  lemma {:induction false} StoredCommands(gs: seq<EditGroup>)
    ensures forall i, c :: 0 <= i < |gs| && c in Stored(gs)[i].commands ==>
      c.Some? && c.value in gs[i].commands
    ensures forall i, e :: 0 <= i < |gs| && e in gs[i].commands ==> Some(e) in Stored(gs)[i].commands
  {
    var doc := Stored(gs);
    forall i, c | 0 <= i < |gs| && c in doc[i].commands ensures c.Some? && c.value in gs[i].commands {
      var k :| 0 <= k < |doc[i].commands| && doc[i].commands[k] == c;
    }
    forall i, e | 0 <= i < |gs| && e in gs[i].commands ensures Some(e) in doc[i].commands {
      var k :| 0 <= k < |gs[i].commands| && gs[i].commands[k] == e;
      assert doc[i].commands[k] == Some(e);
    }
  }

  /** Storing children built from `edits` and dispatching the selected ones
      runs exactly the kept edits with a selected tag. */
  lemma {:induction false} StoredDispatch(gs: seq<EditGroup>, types: seq<string>, tagOf: Tagger, keep: Keeper,
                                          edits: seq<string>)
    requires forall j :: 0 <= j < |gs| ==> gs[j].commands == KeptWithTag(tagOf, keep, edits, gs[j].tag)
    requires forall e :: e in edits && tagOf(e).Some? ==> tagOf(e).value in Tags(gs)
    ensures None !in Dispatched(Stored(gs), types)
    ensures forall e :: Some(e) in Dispatched(Stored(gs), types) <==>
      e in edits && tagOf(e).Some? && tagOf(e).value in types && keep(e)
  {
    var doc := Stored(gs);
    DispatchedMembers(doc, types);
    StoredCommands(gs);
    forall e ensures Some(e) in Dispatched(doc, types) <==>
      e in edits && tagOf(e).Some? && tagOf(e).value in types && keep(e)
    {
      if Some(e) in Dispatched(doc, types) {
        var i :| 0 <= i < |doc| && doc[i].tag in types && Some(e) in doc[i].commands;
        KeptWithTagMembers(tagOf, keep, edits, gs[i].tag);
      }
      if e in edits && tagOf(e).Some? && tagOf(e).value in types && keep(e) {
        var t := tagOf(e).value;
        var i :| 0 <= i < |gs| && Tags(gs)[i] == t;
        KeptWithTagMembers(tagOf, keep, edits, gs[i].tag);
        assert Some(e) in doc[i].commands;
      }
    }
  }

  /** Importing what the export wrote runs exactly the kept edits whose tag
      is selected, and nothing without a command. */
  lemma {:induction false} ImportAfterExport(xmlPath: string, refEdits: seq<string>, f: Filters, dir: DirState,
                                             sceneName: string, groups: seq<EditGroup>, types: seq<string>)
    requires Export(xmlPath, refEdits, f, dir, sceneName) == Written(sceneName, groups)
    ensures None !in Dispatched(Stored(groups), types)
    ensures forall e :: Some(e) in Dispatched(Stored(groups), types) <==>
      e in refEdits && FirstToken(e).Some? && FirstToken(e).value in types && Keep(f, e)
  {
    var sorted := SortStrings(refEdits);
    ExportedTree(xmlPath, refEdits, f, dir, sceneName, groups);
    SortedSameElements(refEdits);
    StoredDispatch(groups, types, TagOf, KeepWith(f), sorted);
  }
}
