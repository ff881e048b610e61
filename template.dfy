/** `string_to_dict(text, pattern)` of RenderExport/ExportImportReferenceEdits.py.
    Each `{name}` placeholder of the pattern becomes a named greedy `.+`
    group, the other characters of the pattern stay literal, the regex is
    searched anywhere in the text (leftmost start, backtracking from the
    longest group), and the groups come back by name, or `''` for every name
    when the regex matches nowhere. */
module Template {
  import opened Lists

  /** One element of a parsed pattern: literal text or a named `(.+)` group. */
  datatype Piece = Lit(text: string) | Hole(name: string)

  function HoleNames(t: seq<Piece>): (r: seq<string>)
    ensures |r| <= |t|
  {
    if t == [] then []
    else if t[0].Hole? then [t[0].name] + HoleNames(t[1..])
    else HoleNames(t[1..])
  }

  /** What `.+` can capture: at least one character, none of them a newline. */
  predicate ValidCapture(v: string) {
    v != [] && '\n' !in v
  }

  /** The template with each hole replaced by its capture. */
  function Fill(t: seq<Piece>, caps: seq<string>): string
    requires |caps| == |HoleNames(t)|
  {
    if t == [] then ""
    else if t[0].Lit? then t[0].text + Fill(t[1..], caps)
    else caps[0] + Fill(t[1..], caps[1..])
  }

  // ---------------------------------------------------------------------
  // from the pattern string to pieces: re.findall / re.sub of r'{(.+?)}'

  /** The end of a lazy `.+?}` group that opened before `first`: the first
      `}` at index > first with no newline on the way. */
  function CloseBrace(p: string, q: nat, first: nat): (r: Option<nat>)
    requires first <= q <= |p|
    requires forall k :: first <= k < q ==> p[k] != '\n'
    ensures r.Some? ==> first < r.value < |p| && p[r.value] == '}'
    ensures r.Some? ==> forall k :: first <= k < r.value ==> p[k] != '\n'
    decreases |p| - q
  {
    if q == |p| || p[q] == '\n' then None
    else if p[q] == '}' && q > first then Some(q)
    else CloseBrace(p, q + 1, first)
  }

  /** The pieces that `re.sub(r'{(.+?)}', r'(?P<_\1>.+)', pattern)` produces:
      a placeholder wherever `{(.+?)}` matches in a left-to-right scan, one
      literal character everywhere else. */
  function ParsePattern(p: string): seq<Piece>
    decreases |p|
  {
    if p == [] then []
    else if p[0] == '{' && CloseBrace(p, 1, 1).Some? then
      var j := CloseBrace(p, 1, 1).value;
      [Hole(p[1..j])] + ParsePattern(p[j + 1..])
    else [Lit([p[0]])] + ParsePattern(p[1..])
  }

  // ---------------------------------------------------------------------
  // backtracking match of the derived regex

  /** Number of characters from `pos` that `.` can match (up to a newline). */
  function RunLength(text: string, pos: nat): (r: nat)
    requires pos <= |text|
    ensures pos + r <= |text|
    ensures forall i :: pos <= i < pos + r ==> text[i] != '\n'
    ensures pos + r == |text| || text[pos + r] == '\n'
    decreases |text| - pos
  {
    if pos == |text| || text[pos] == '\n' then 0 else 1 + RunLength(text, pos + 1)
  }

  datatype Match = Match(end: nat, caps: seq<string>)

  /** The regex of `t` matched at exactly `pos`, as Python's backtracking
      matcher does: literals must be present, each group tries the longest
      run first and gives back one character at a time. */
  function MatchAt(t: seq<Piece>, text: string, pos: nat): (r: Option<Match>)
    requires pos <= |text|
    ensures r.Some? ==> pos <= r.value.end <= |text| && |r.value.caps| == |HoleNames(t)|
    decreases |t|, 0, 0
  {
    if t == [] then Some(Match(pos, []))
    else if t[0].Lit? then
      var l := t[0].text;
      if pos + |l| <= |text| && text[pos..pos + |l|] == l then MatchAt(t[1..], text, pos + |l|)
      else None
    else TryLengths(t[1..], text, pos, RunLength(text, pos))
  }

  /** A greedy group at `pos` followed by `rest`: try lengths k, k-1, …, 1. */
  function TryLengths(rest: seq<Piece>, text: string, pos: nat, k: nat): (r: Option<Match>)
    requires pos + k <= |text|
    ensures r.Some? ==> pos < r.value.end <= |text| && |r.value.caps| == |HoleNames(rest)| + 1
    decreases |rest|, 1, k
  {
    if k == 0 then None
    else
      var m := MatchAt(rest, text, pos + k);
      if m.Some? then Some(Match(m.value.end, [text[pos..pos + k]] + m.value.caps))
      else TryLengths(rest, text, pos, k - 1)
  }

  /** Soundness of the matcher: the captures are what `.+` can capture, and
      filling the template with them spells the matched text. */
  lemma {:induction false} MatchAtSound(t: seq<Piece>, text: string, pos: nat)
    requires pos <= |text|
    ensures var r := MatchAt(t, text, pos);
      r.Some? ==>
        && (forall i :: 0 <= i < |r.value.caps| ==> ValidCapture(r.value.caps[i]))
        && text[pos..r.value.end] == Fill(t, r.value.caps)
    decreases |t|, 0, 0
  {
    var r := MatchAt(t, text, pos);
    if t != [] && r.Some? {
      if t[0].Lit? {
        var l := t[0].text;
        MatchAtSound(t[1..], text, pos + |l|);
        assert text[pos..r.value.end] == l + text[pos + |l|..r.value.end];
      } else {
        TryLengthsSound(t[1..], text, pos, RunLength(text, pos));
      }
    }
  }

  lemma {:induction false} TryLengthsSound(rest: seq<Piece>, text: string, pos: nat, k: nat)
    requires pos + k <= |text|
    requires forall i :: pos <= i < pos + k ==> text[i] != '\n'
    ensures var r := TryLengths(rest, text, pos, k);
      r.Some? ==>
        && (forall i :: 0 <= i < |r.value.caps| ==> ValidCapture(r.value.caps[i]))
        && text[pos..r.value.end] == r.value.caps[0] + Fill(rest, r.value.caps[1..])
    decreases |rest|, 1, k
  {
    if k > 0 {
      var m := MatchAt(rest, text, pos + k);
      if m.Some? {
        MatchAtSound(rest, text, pos + k);
        var caps := [text[pos..pos + k]] + m.value.caps;
        assert caps[1..] == m.value.caps;
        assert text[pos..m.value.end] == text[pos..pos + k] + text[pos + k..m.value.end];
      } else {
        TryLengthsSound(rest, text, pos, k - 1);
      }
    }
  }

  datatype Found = Found(start: nat, m: Match)

  /** `re.search`: the first start position, from `s` on, where the regex matches. */
  function SearchFrom(text: string, t: seq<Piece>, s: nat): (r: Option<Found>)
    requires s <= |text|
    ensures r.Some? ==>
      s <= r.value.start <= |text| && MatchAt(t, text, r.value.start) == Some(r.value.m)
    ensures r.Some? ==> forall p :: s <= p < r.value.start ==> MatchAt(t, text, p).None?
    decreases |text| - s
  {
    var m := MatchAt(t, text, s);
    if m.Some? then Some(Found(s, m.value))
    else if s == |text| then None
    else SearchFrom(text, t, s + 1)
  }

  function Search(text: string, t: seq<Piece>): Option<Found> {
    SearchFrom(text, t, 0)
  }

  /** `dict(zip(keys, values))`: a later duplicate key overrides an earlier one. */
  function ZipMap(ks: seq<string>, vs: seq<string>): (r: map<string, string>)
    requires |ks| == |vs|
    ensures r.Keys == set k | k in ks
    ensures NoDup(ks) ==> forall i :: 0 <= i < |ks| ==> r[ks[i]] == vs[i]
  {
    if ks == [] then map[]
    else
      var tail := ZipMap(ks[1..], vs[1..]);
      var r := map[ks[0] := vs[0]] + tail;
      assert forall k :: k in ks <==> k == ks[0] || k in ks[1..];
      r
  }

  /** `string_to_dict(text, pattern)` for an already parsed pattern. Python
      refuses a regex with two groups of the same name, so the names are
      required to be distinct. */
  function StringToDict(text: string, t: seq<Piece>): (r: map<string, string>)
    requires NoDup(HoleNames(t))
    ensures r.Keys == set n | n in HoleNames(t)
    ensures Search(text, t).None? ==> forall n :: n in r ==> r[n] == ""
    ensures Search(text, t).Some? ==>
      var f := Search(text, t).value;
      && (forall i :: 0 <= i < |HoleNames(t)| ==>
            r[HoleNames(t)[i]] == f.m.caps[i] && ValidCapture(r[HoleNames(t)[i]]))
      && f.start <= f.m.end <= |text|
      && text[f.start..f.m.end] == Fill(t, f.m.caps)
  {
    var keys := HoleNames(t);
    var found := Search(text, t);
    if found.Some? then
      MatchAtSound(t, text, found.value.start);
      ZipMap(keys, found.value.m.caps)
    else ZipMap(keys, seq(|keys|, _ => ""))
  }

  // ---------------------------------------------------------------------
  // properties

  /** A longer try that fails only delays the first successful one. */
  lemma {:induction false} TryLengthsSkip(rest: seq<Piece>, text: string, pos: nat, k: nat, j: nat)
    requires j <= k && pos + k <= |text|
    requires forall i :: pos <= i < pos + k ==> text[i] != '\n'
    requires forall q :: pos + j < q <= pos + k ==> MatchAt(rest, text, q).None?
    ensures TryLengths(rest, text, pos, k) == TryLengths(rest, text, pos, j)
    decreases k
  {
    if k > j {
      TryLengthsSkip(rest, text, pos, k - 1, j);
    }
  }

  /** Some length within reach that lets the rest match makes the group match. */
  lemma {:induction false} TryLengthsReaches(rest: seq<Piece>, text: string, pos: nat, k: nat, j: nat)
    requires 1 <= j <= k && pos + k <= |text|
    requires forall i :: pos <= i < pos + k ==> text[i] != '\n'
    requires MatchAt(rest, text, pos + j).Some?
    ensures TryLengths(rest, text, pos, k).Some?
    decreases k
  {
    if k > j && MatchAt(rest, text, pos + k).None? {
      TryLengthsReaches(rest, text, pos, k - 1, j);
    }
  }

  /** Completeness of the matcher: wherever the filled template occurs, the
      regex matches (possibly with other captures). */
  lemma {:induction false} MatchAtComplete(t: seq<Piece>, text: string, pos: nat, caps: seq<string>)
    requires |caps| == |HoleNames(t)| && forall i :: 0 <= i < |caps| ==> ValidCapture(caps[i])
    requires pos + |Fill(t, caps)| <= |text| && text[pos..pos + |Fill(t, caps)|] == Fill(t, caps)
    ensures MatchAt(t, text, pos).Some?
    decreases |t|, 1
  {
    if t != [] {
      if t[0].Lit? {
        MatchLitComplete(t, text, pos, caps);
      } else {
        MatchHoleComplete(t, text, pos, caps);
      }
    }
  }

  lemma {:induction false} MatchLitComplete(t: seq<Piece>, text: string, pos: nat, caps: seq<string>)
    requires t != [] && t[0].Lit?
    requires |caps| == |HoleNames(t)| && forall i :: 0 <= i < |caps| ==> ValidCapture(caps[i])
    requires pos + |Fill(t, caps)| <= |text| && text[pos..pos + |Fill(t, caps)|] == Fill(t, caps)
    ensures MatchAt(t, text, pos).Some?
    decreases |t|, 0
  {
    var f := Fill(t, caps);
    var l := t[0].text;
    var g := Fill(t[1..], caps);
    assert HoleNames(t) == HoleNames(t[1..]);
    assert f == l + g;
    var window := text[pos..pos + |f|];
    assert text[pos..pos + |l|] == window[..|l|] == l;
    assert text[pos + |l|..pos + |l| + |g|] == window[|l|..] == g;
    MatchAtComplete(t[1..], text, pos + |l|, caps);
  }

  lemma {:induction false} MatchHoleComplete(t: seq<Piece>, text: string, pos: nat, caps: seq<string>)
    requires t != [] && t[0].Hole?
    requires |caps| == |HoleNames(t)| && forall i :: 0 <= i < |caps| ==> ValidCapture(caps[i])
    requires pos + |Fill(t, caps)| <= |text| && text[pos..pos + |Fill(t, caps)|] == Fill(t, caps)
    ensures MatchAt(t, text, pos).Some?
    decreases |t|, 0
  {
    var f := Fill(t, caps);
    var v := caps[0];
    var tail := Fill(t[1..], caps[1..]);
    assert f == v + tail;
    assert text[pos..pos + |v|] == text[pos..pos + |f|][..|v|];
    assert text[pos + |v|..pos + |v| + |tail|] == f[|v|..];
    forall i | pos <= i < pos + |v| ensures text[i] != '\n' {
      assert text[i] == v[i - pos];
    }
    var run := RunLength(text, pos);
    assert |v| <= run;
    assert forall i :: 0 <= i < |caps[1..]| ==> ValidCapture(caps[1..][i]);
    MatchAtComplete(t[1..], text, pos + |v|, caps[1..]);
    TryLengthsReaches(t[1..], text, pos, run, |v|);
  }

  lemma {:induction false} SearchFromReaches(text: string, t: seq<Piece>, s: nat, p: nat)
    requires s <= p <= |text| && MatchAt(t, text, p).Some?
    ensures SearchFrom(text, t, s).Some?
    decreases p - s
  {
    if s < p && MatchAt(t, text, s).None? {
      SearchFromReaches(text, t, s + 1, p);
    }
  }

  /** The search finds nothing exactly when the filled template occurs
      nowhere in the text, whatever valid values are tried. */
  lemma {:induction false} SearchNoneIff(text: string, t: seq<Piece>, start: nat, caps: seq<string>)
    requires |caps| == |HoleNames(t)| && forall i :: 0 <= i < |caps| ==> ValidCapture(caps[i])
    requires start + |Fill(t, caps)| <= |text| && text[start..start + |Fill(t, caps)|] == Fill(t, caps)
    ensures Search(text, t).Some?
  {
    MatchAtComplete(t, text, start, caps);
    SearchFromReaches(text, t, 0, start);
  }

  // ---------------------------------------------------------------------
  // the three patterns of export_refedits, already read into pieces

  /** `{command} "{source}" "{destination}"` */
  const ConnectTemplate: seq<Piece> :=
    [Hole("command")] + ([Lit(" ")] + ([Lit("\"")] + ([Hole("source")] + AfterSource("destination"))))
  /** `{command} {attribute} {value}` */
  const SetAttrTemplate: seq<Piece> :=
    [Hole("command")] + ([Lit(" ")] + ([Hole("attribute")] + ([Lit(" ")] + [Hole("value")])))
  /** `{command} {object}` */
  const ObjectTemplate: seq<Piece> :=
    [Hole("command")] + ([Lit(" ")] + [Hole("object")])

  /** The scan finds the `}` right after a name free of braces and newlines. */
  lemma {:induction false} CloseBraceAfterName(p: string, q: nat, name: string)
    requires 1 <= q <= |name| + 1 < |p| && p[0] == '{' && p[1..|name| + 1] == name
    requires name != [] && '}' !in name && '\n' !in name && p[|name| + 1] == '}'
    ensures forall k :: 1 <= k < q ==> p[k] != '\n'
    ensures CloseBrace(p, q, 1) == Some(|name| + 1)
    decreases |name| + 1 - q
  {
    assert forall k :: 1 <= k < |name| + 1 ==> p[k] == name[k - 1];
    if q < |name| + 1 {
      CloseBraceAfterName(p, q + 1, name);
    }
  }

  /** A placeholder at the front becomes one hole. */
  lemma {:induction false} ParseHole(name: string, rest: string)
    requires name != [] && '}' !in name && '\n' !in name
    ensures ParsePattern("{" + name + "}" + rest) == [Hole(name)] + ParsePattern(rest)
  {
    var p := "{" + name + "}" + rest;
    assert p[0] == '{' && p[1..|name| + 1] == name && p[|name| + 1] == '}';
    CloseBraceAfterName(p, 1, name);
    assert p[|name| + 2..] == rest;
  }

  /** Any other character at the front stays a literal. */
  lemma {:induction false} ParseLit(c: char, rest: string)
    requires c != '{'
    ensures ParsePattern([c] + rest) == [Lit([c])] + ParsePattern(rest)
  {
    assert ([c] + rest)[1..] == rest;
  }

  predicate PlainName(name: string) {
    name != [] && '{' !in name && '}' !in name && '\n' !in name
  }

  /** Pieces that a pattern string can spell: one-character literals other
      than `{`, and placeholders with plain names. */
  predicate Spellable(t: seq<Piece>) {
    forall i :: 0 <= i < |t| ==> SpellablePiece(t[i])
  }

  predicate SpellablePiece(x: Piece) {
    match x
    case Lit(c) => |c| == 1 && c[0] != '{'
    case Hole(n) => PlainName(n)
  }

  function Spell(x: Piece): string {
    match x
    case Lit(c) => c
    case Hole(n) => "{" + n + "}"
  }

  /** The pattern string that spells `t`. */
  function Unparse(t: seq<Piece>): string {
    if t == [] then "" else Spell(t[0]) + Unparse(t[1..])
  }

  /** Reading a spelled pattern gives its pieces back. */
  lemma {:induction false} ParseUnparse(t: seq<Piece>)
    requires Spellable(t)
    ensures ParsePattern(Unparse(t)) == t
  {
    if t != [] {
      assert Spellable(t[1..]) by {
        forall i | 0 <= i < |t[1..]| ensures t[1..][i] == t[i + 1] { }
      }
      ParseUnparse(t[1..]);
      match t[0]
      case Lit(c) =>
        assert c == [c[0]];
        ParseLit(c[0], Unparse(t[1..]));
      case Hole(n) =>
        ParseHole(n, Unparse(t[1..]));
    }
  }

  /** Spelling a sequence of pieces spells its first piece, then the rest. */
  lemma {:induction false} UnparseCons(p: Piece, rest: seq<Piece>)
    ensures Unparse([p] + rest) == Spell(p) + Unparse(rest)
  {
    assert ([p] + rest)[0] == p;
    assert ([p] + rest)[1..] == rest;
  }

  lemma {:induction false} SpellableCons(p: Piece, rest: seq<Piece>)
    ensures Spellable([p] + rest) <==> SpellablePiece(p) && Spellable(rest)
  {
    var t := [p] + rest;
    assert t[0] == p;
    assert forall i :: 0 <= i < |rest| ==> t[i + 1] == rest[i];
    if SpellablePiece(p) && Spellable(rest) {
      forall i | 0 <= i < |t| ensures SpellablePiece(t[i]) {
        if i > 0 { assert t[i] == rest[i - 1]; }
      }
    }
  }

  /** Each template is what its format string in the source reads as; with
      `ParseUnparse`, reading that string gives the template back. */
  lemma {:induction false} ObjectPattern()
    ensures Spellable(ObjectTemplate)
    ensures Unparse(ObjectTemplate) == "{command} {object}"
  {
    PlainNames();
    SpellObject("command", "object");
    ObjectText();
  }

  lemma {:induction false} SetAttrPattern()
    ensures Spellable(SetAttrTemplate)
    ensures Unparse(SetAttrTemplate) == "{command} {attribute} {value}"
  {
    PlainNames();
    SpellSetAttr("command", "attribute", "value");
    SetAttrText();
  }

  lemma {:induction false} ConnectPattern()
    ensures Spellable(ConnectTemplate)
    ensures Unparse(ConnectTemplate) == "{command} \"{source}\" \"{destination}\""
  {
    PlainNames();
    SpellConnect("command", "source", "destination");
    ConnectText();
  }

  lemma {:induction false} SpellObject(c: string, o: string)
    requires PlainName(c) && PlainName(o)
    ensures var t := [Hole(c)] + ([Lit(" ")] + [Hole(o)]);
      Spellable(t) && Unparse(t) == Spell(Hole(c)) + (" " + Spell(Hole(o)))
  {
    var t1 := [Hole(o)];
    var t0 := [Lit(" ")] + t1;
    assert Spellable(t1);
    SpellableCons(Lit(" "), t1);
    SpellableCons(Hole(c), t0);
    UnparseCons(Hole(o), []);
    assert [Hole(o)] + [] == t1;
    UnparseCons(Lit(" "), t1);
    UnparseCons(Hole(c), t0);
  }

  lemma {:induction false} SpellSetAttr(c: string, a: string, v: string)
    requires PlainName(c) && PlainName(a) && PlainName(v)
    ensures var t := [Hole(c)] + ([Lit(" ")] + ([Hole(a)] + ([Lit(" ")] + [Hole(v)])));
      Spellable(t) &&
      Unparse(t) == Spell(Hole(c)) + (" " + (Spell(Hole(a)) + (" " + Spell(Hole(v)))))
  {
    var t3 := [Hole(v)];
    var t2 := [Lit(" ")] + t3;
    var t1 := [Hole(a)] + t2;
    var t0 := [Lit(" ")] + t1;
    assert Spellable(t3);
    SpellableCons(Lit(" "), t3);
    SpellableCons(Hole(a), t2);
    SpellableCons(Lit(" "), t1);
    SpellableCons(Hole(c), t0);
    UnparseCons(Hole(v), []);
    assert [Hole(v)] + [] == t3;
    UnparseCons(Lit(" "), t3);
    UnparseCons(Hole(a), t2);
    UnparseCons(Lit(" "), t1);
    UnparseCons(Hole(c), t0);
  }

  lemma {:induction false} SpellConnect(c: string, s: string, d: string)
    requires PlainName(c) && PlainName(s) && PlainName(d)
    ensures var t := [Hole(c)] + ([Lit(" ")] + ([Lit("\"")] + ([Hole(s)] + AfterSource(d))));
      Spellable(t) &&
      Unparse(t) == Spell(Hole(c)) + (" " + ("\"" + (Spell(Hole(s)) +
        ("\"" + (" " + ("\"" + (Spell(Hole(d)) + "\"")))))))
  {
    var t7 := [Lit("\"")];
    var t6 := [Hole(d)] + t7;
    var t5 := [Lit("\"")] + t6;
    var t4 := [Lit(" ")] + t5;
    var t3 := [Lit("\"")] + t4;
    var t2 := [Hole(s)] + t3;
    var t1 := [Lit("\"")] + t2;
    var t0 := [Lit(" ")] + t1;
    assert t3 == AfterSource(d);
    assert Spellable(t7);
    SpellableCons(Hole(d), t7);
    SpellableCons(Lit("\""), t6);
    SpellableCons(Lit(" "), t5);
    SpellableCons(Lit("\""), t4);
    SpellableCons(Hole(s), t3);
    SpellableCons(Lit("\""), t2);
    SpellableCons(Lit(" "), t1);
    SpellableCons(Hole(c), t0);
    UnparseCons(Lit("\""), []);
    assert [Lit("\"")] + [] == t7;
    UnparseCons(Hole(d), t7);
    UnparseCons(Lit("\""), t6);
    UnparseCons(Lit(" "), t5);
    UnparseCons(Lit("\""), t4);
    UnparseCons(Hole(s), t3);
    UnparseCons(Lit("\""), t2);
    UnparseCons(Lit(" "), t1);
    UnparseCons(Hole(c), t0);
  }

  /** The placeholders of the three templates, as `Spell` writes them. */
  lemma {:induction false} SpellNames()
    ensures Spell(Hole("command")) == "{command}" && Spell(Hole("object")) == "{object}"
    ensures Spell(Hole("attribute")) == "{attribute}" && Spell(Hole("value")) == "{value}"
    ensures Spell(Hole("source")) == "{source}" && Spell(Hole("destination")) == "{destination}"
  {
    assert "{" + "command" + "}" == "{command}";
    assert "{" + "object" + "}" == "{object}";
    assert "{" + "attribute" + "}" == "{attribute}";
    assert "{" + "value" + "}" == "{value}";
    assert "{" + "source" + "}" == "{source}";
    assert "{" + "destination" + "}" == "{destination}";
  }

  /** The placeholder names of the three templates are plain. */
  lemma {:induction false} PlainNames()
    ensures PlainName("command") && PlainName("object") && PlainName("attribute")
    ensures PlainName("value") && PlainName("source") && PlainName("destination")
  {
    PlainPair("command", "object");
    PlainPair("attribute", "value");
    PlainPair("source", "destination");
  }

  lemma {:induction false} PlainPair(x: string, y: string)
    requires forall i :: 0 <= i < |x| ==> 'a' <= x[i] <= 'z'
    requires forall i :: 0 <= i < |y| ==> 'a' <= y[i] <= 'z'
    requires x != [] && y != []
    ensures PlainName(x) && PlainName(y)
  {
  }

  lemma {:induction false} ObjectText()
    ensures Spell(Hole("command")) + (" " + Spell(Hole("object"))) == "{command} {object}"
  {
    SpellNames();
    ObjectJoined();
  }

  lemma {:induction false} SetAttrText()
    ensures Spell(Hole("command")) + (" " + (Spell(Hole("attribute")) + (" " + Spell(Hole("value"))))) ==
      "{command} {attribute} {value}"
  {
    SpellNames();
    SetAttrJoined();
  }

  lemma {:induction false} ConnectText()
    ensures Spell(Hole("command")) + (" " + ("\"" + (Spell(Hole("source")) +
      ("\"" + (" " + ("\"" + (Spell(Hole("destination")) + "\""))))))) ==
      "{command} \"{source}\" \"{destination}\""
  {
    SpellNames();
    ConnectJoined();
  }

  lemma {:induction false} ObjectJoined()
    ensures "{command}" + (" " + "{object}") == "{command} {object}"
  {
  }

  lemma {:induction false} SetAttrJoined()
    ensures "{command}" + (" " + ("{attribute}" + (" " + "{value}"))) == "{command} {attribute} {value}"
  {
  }

  lemma {:induction false} ConnectJoined()
    ensures "{command}" + (" " + ("\"" + ("{source}" + ("\"" + (" " + ("\"" + ("{destination}" + "\""))))))) ==
      "{command} \"{source}\" \"{destination}\""
  {
  }

  // The group names of each template; they are distinct, as Python's `re`
  // demands of named groups.

  /** Reading the group names skips the literal pieces. */
  lemma {:induction false} HoleNamesCons(p: Piece, rest: seq<Piece>)
    ensures HoleNames([p] + rest) == (if p.Hole? then [p.name] else []) + HoleNames(rest)
  {
    assert ([p] + rest)[1..] == rest;
  }
  lemma {:induction false} ObjectHoles()
    ensures HoleNames(ObjectTemplate) == ["command", "object"]
  {
    HoleNamesCons(Hole("object"), []);
    HoleNamesCons(Lit(" "), [Hole("object")]);
    HoleNamesCons(Hole("command"), [Lit(" ")] + [Hole("object")]);
  }
  lemma {:induction false} SetAttrHoles()
    ensures HoleNames(SetAttrTemplate) == ["command", "attribute", "value"]
  {
    var r3 := [Lit(" ")] + [Hole("value")];
    var r2 := [Hole("attribute")] + r3;
    var r1 := [Lit(" ")] + r2;
    HoleNamesCons(Hole("value"), []);
    HoleNamesCons(Lit(" "), [Hole("value")]);
    HoleNamesCons(Hole("attribute"), r3);
    HoleNamesCons(Lit(" "), r2);
    HoleNamesCons(Hole("command"), r1);
  }
  lemma {:induction false} ConnectHoles()
    ensures HoleNames(ConnectTemplate) == ["command", "source", "destination"]
  {
    var d4 := [Hole("destination")] + [Lit("\"")];
    var d3 := [Lit("\"")] + d4;
    var d2 := [Lit(" ")] + d3;
    var d1 := [Lit("\"")] + d2;
    var s1 := [Hole("source")] + d1;
    var s0 := [Lit("\"")] + s1;
    var c1 := [Lit(" ")] + s0;
    HoleNamesCons(Lit("\""), []);
    HoleNamesCons(Hole("destination"), [Lit("\"")]);
    HoleNamesCons(Lit("\""), d4);
    HoleNamesCons(Lit(" "), d3);
    HoleNamesCons(Lit("\""), d2);
    HoleNamesCons(Hole("source"), d1);
    HoleNamesCons(Lit("\""), s1);
    HoleNamesCons(Lit(" "), s0);
    HoleNamesCons(Hole("command"), c1);
  }


  // ---------------------------------------------------------------------
  // what the greedy groups capture in well-shaped commands

  /** A group at the end takes the rest of a newline-free text. */
  lemma {:induction false} LastHoleTakesRest(n: string, text: string, q: nat)
    requires q < |text| && forall i :: q <= i < |text| ==> text[i] != '\n'
    ensures MatchAt([Hole(n)], text, q) == Some(Match(|text|, [text[q..]]))
  {
    assert [Hole(n)][1..] == [];
    var run := RunLength(text, q);
    assert run == |text| - q;
    assert MatchAt([], text, q + run) == Some(Match(|text|, []));
    assert text[q..q + run] == text[q..];
    assert [text[q..]] + [] == [text[q..]];
  }

  /** A literal at the front must be present, and then the rest decides. */
  lemma {:induction false} LitFront(l: string, rest: seq<Piece>, text: string, q: nat)
    requires q <= |text|
    ensures MatchAt([Lit(l)] + rest, text, q).Some? ==>
      q + |l| <= |text| && text[q..q + |l|] == l
    ensures q + |l| <= |text| && text[q..q + |l|] == l ==>
      MatchAt([Lit(l)] + rest, text, q) == MatchAt(rest, text, q + |l|)
  {
    assert ([Lit(l)] + rest)[1..] == rest;
  }

  /** A space literal at the front needs a space at `q`. */
  lemma {:induction false} SpaceFront(rest: seq<Piece>, text: string, q: nat)
    requires q <= |text|
    ensures MatchAt([Lit(" ")] + rest, text, q).Some? ==> q < |text| && text[q] == ' '
    ensures q < |text| && text[q] == ' ' ==>
      MatchAt([Lit(" ")] + rest, text, q) == MatchAt(rest, text, q + 1)
  {
    LitFront(" ", rest, text, q);
    if q < |text| {
      assert text[q] == ' ' <==> text[q..q + 1] == " " by {
        assert text[q..q + 1] == [text[q]];
      }
    }
  }

  /** A group followed by a space can only match where a space comes later. */
  lemma {:induction false} HoleNeedsLaterSpace(n: string, rest: seq<Piece>, text: string, q: nat)
    requires q <= |text| && MatchAt([Hole(n)] + ([Lit(" ")] + rest), text, q).Some?
    ensures exists j :: q < j < |text| && text[j] == ' '
  {
    var t := [Hole(n)] + ([Lit(" ")] + rest);
    var m := MatchAt(t, text, q).value;
    MatchAtSound(t, text, q);
    assert t[1..] == [Lit(" ")] + rest && t[1..][1..] == rest;
    var c := m.caps;
    assert Fill(t, c) == c[0] + Fill(t[1..], c[1..]);
    assert Fill(t[1..], c[1..]) == " " + Fill(rest, c[1..]);
    var j := q + |c[0]|;
    assert text[q..m.end][|c[0]|] == ' ';
    assert text[j] == ' ';
  }


  /** A group at `pos` whose text runs to the end and whose only acceptable
      split point is `pos + k`: the greedy search settles on it. */
  lemma {:induction false} GreedyStopsAt(rest: seq<Piece>, text: string, pos: nat, k: nat, m: Match)
    requires 1 <= k && pos + k <= |text|
    requires forall i :: pos <= i < |text| ==> text[i] != '\n'
    requires forall q :: pos + k < q <= |text| ==> MatchAt(rest, text, q).None?
    requires MatchAt(rest, text, pos + k) == Some(m)
    ensures TryLengths(rest, text, pos, RunLength(text, pos)) ==
      Some(Match(m.end, [text[pos..pos + k]] + m.caps))
  {
    var run := RunLength(text, pos);
    assert run == |text| - pos;
    TryLengthsSkip(rest, text, pos, run, k);
  }

  /** ` {x}` at a space after which no space follows. */
  lemma {:induction false} ValueStep(x: string, text: string, p: nat)
    requires p + 1 < |text| && text[p] == ' '
    requires forall i :: p < i < |text| ==> text[i] != '\n' && text[i] != ' '
    ensures MatchAt([Lit(" ")] + [Hole(x)], text, p) == Some(Match(|text|, [text[p + 1..]]))
    ensures forall q :: p < q <= |text| ==> MatchAt([Lit(" ")] + [Hole(x)], text, q).None?
  {
    SpaceFront([Hole(x)], text, p);
    LastHoleTakesRest(x, text, p + 1);
    forall q | p < q <= |text| ensures MatchAt([Lit(" ")] + [Hole(x)], text, q).None? {
      SpaceFront([Hole(x)], text, q);
    }
  }


  /** A group at the front hands over to the greedy length search. */
  lemma {:induction false} HoleFront(x: string, rest: seq<Piece>, text: string, q: nat)
    requires q <= |text|
    ensures MatchAt([Hole(x)] + rest, text, q) == TryLengths(rest, text, q, RunLength(text, q))
  {
    assert ([Hole(x)] + rest)[1..] == rest;
  }

  /** ` {x} {y}` at a space, with exactly one later space at `p2`. */
  lemma {:induction false} AttributeStep(x: string, y: string, text: string, p1: nat, p2: nat)
    requires p1 + 1 < p2 && p2 + 1 < |text| && text[p1] == ' ' && text[p2] == ' '
    requires forall i :: p1 < i < |text| ==> text[i] != '\n'
    requires forall i :: p1 < i < |text| && i != p2 ==> text[i] != ' '
    ensures MatchAt([Lit(" ")] + ([Hole(x)] + ([Lit(" ")] + [Hole(y)])), text, p1) ==
      Some(Match(|text|, [text[p1 + 1..p2], text[p2 + 1..]]))
  {
    var r3 := [Lit(" ")] + [Hole(y)];
    ValueStep(y, text, p2);
    var m3 := Match(|text|, [text[p2 + 1..]]);
    GreedyStopsAt(r3, text, p1 + 1, p2 - p1 - 1, m3);
    HoleFront(x, r3, text, p1 + 1);
    SpaceFront([Hole(x)] + r3, text, p1);
    assert [text[p1 + 1..p1 + 1 + (p2 - p1 - 1)]] + m3.caps == [text[p1 + 1..p2], text[p2 + 1..]];
  }


  /** ` {x} {y}` cannot match after the space `p1` when only one space follows it. */
  lemma {:induction false} AttributeStepLater(x: string, y: string, text: string, p1: nat, p2: nat)
    requires p1 < p2 < |text|
    requires forall i :: p1 < i < |text| && i != p2 ==> text[i] != ' '
    ensures forall q :: p1 < q <= |text| ==>
      MatchAt([Lit(" ")] + ([Hole(x)] + ([Lit(" ")] + [Hole(y)])), text, q).None?
  {
    var r2 := [Hole(x)] + ([Lit(" ")] + [Hole(y)]);
    forall q | p1 < q <= |text| ensures MatchAt([Lit(" ")] + r2, text, q).None? {
      SpaceFront(r2, text, q);
      if MatchAt([Lit(" ")] + r2, text, q).Some? {
        assert q == p2;
        HoleNeedsLaterSpace(x, [Hole(y)], text, q + 1);
        assert false;
      }
    }
  }


  /** `setAttr`-shaped text: `c a v` where `a` and `v` hold no space or
      newline and `c` no newline. The three groups capture `c`, `a` and `v`. */
  lemma {:induction false} SetAttrFields(c: string, a: string, v: string)
    requires c != [] && '\n' !in c
    requires a != [] && v != [] && ' ' !in a && '\n' !in a && ' ' !in v && '\n' !in v
    ensures var text := c + " " + a + " " + v;
      Search(text, SetAttrTemplate) == Some(Found(0, Match(|text|, [c, a, v])))
  {
    var text := c + " " + a + " " + v;
    var p1 := |c|;
    var p2 := |c| + 1 + |a|;
    forall i | 0 <= i < |text| ensures text[i] != '\n' && (p1 < i && i != p2 ==> text[i] != ' ') {
      if i < p1 { assert text[i] == c[i]; }
      else if p1 < i < p2 { assert text[i] == a[i - p1 - 1]; }
      else if i > p2 { assert text[i] == v[i - p2 - 1]; }
    }
    ThreeFields("command", "attribute", "value", text, p1, p2);
    assert text[0..p1] == c && text[p1 + 1..p2] == a && text[p2 + 1..] == v;
  }

  /** `{x} {y} {z}` on a newline-free text whose last two spaces are `p1`
      and `p2`. */
  lemma {:induction false} ThreeFields(x: string, y: string, z: string, text: string, p1: nat, p2: nat)
    requires 0 < p1 && p1 + 1 < p2 && p2 + 1 < |text| && text[p1] == ' ' && text[p2] == ' '
    requires forall i :: 0 <= i < |text| ==> text[i] != '\n'
    requires forall i :: p1 < i < |text| && i != p2 ==> text[i] != ' '
    ensures Search(text, [Hole(x)] + ([Lit(" ")] + ([Hole(y)] + ([Lit(" ")] + [Hole(z)])))) ==
      Some(Found(0, Match(|text|, [text[..p1], text[p1 + 1..p2], text[p2 + 1..]])))
  {
    var r1 := [Lit(" ")] + ([Hole(y)] + ([Lit(" ")] + [Hole(z)]));
    var t := [Hole(x)] + r1;
    HoleFront(x, r1, text, 0);
    AttributeStep(y, z, text, p1, p2);
    AttributeStepLater(y, z, text, p1, p2);
    var m1 := Match(|text|, [text[p1 + 1..p2], text[p2 + 1..]]);
    GreedyStopsAt(r1, text, 0, p1, m1);
    assert [text[0..p1]] + m1.caps == [text[..p1], text[p1 + 1..p2], text[p2 + 1..]];
    assert Search(text, t) == SearchFrom(text, t, 0);
  }


  /** `addAttr`/`deleteAttr`-shaped text: `c o` where `o` holds no space or
      newline and `c` no newline. The two groups capture `c` and `o`. */
  lemma {:induction false} ObjectFields(c: string, o: string)
    requires c != [] && '\n' !in c && o != [] && ' ' !in o && '\n' !in o
    ensures var text := c + " " + o;
      Search(text, ObjectTemplate) == Some(Found(0, Match(|text|, [c, o])))
  {
    var text := c + " " + o;
    var p := |c|;
    forall i | 0 <= i < |text| ensures text[i] != '\n' && (p < i ==> text[i] != ' ') {
      if i < p { assert text[i] == c[i]; }
      else if i > p { assert text[i] == o[i - p - 1]; }
    }
    TwoFields("command", "object", text, p);
    assert text[..p] == c && text[p + 1..] == o;
  }

  /** `{x} {y}` on a newline-free text whose last space is `p`. */
  lemma {:induction false} TwoFields(x: string, y: string, text: string, p: nat)
    requires 0 < p && p + 1 < |text| && text[p] == ' '
    requires forall i :: 0 <= i < |text| ==> text[i] != '\n' && (p < i ==> text[i] != ' ')
    ensures Search(text, [Hole(x)] + ([Lit(" ")] + [Hole(y)])) ==
      Some(Found(0, Match(|text|, [text[..p], text[p + 1..]])))
  {
    var r := [Lit(" ")] + [Hole(y)];
    var t := [Hole(x)] + r;
    HoleFront(x, r, text, 0);
    ValueStep(y, text, p);
    var m := Match(|text|, [text[p + 1..]]);
    GreedyStopsAt(r, text, 0, p, m);
    assert [text[0..p]] + m.caps == [text[..p], text[p + 1..]];
    assert Search(text, t) == SearchFrom(text, t, 0);
  }


  /** A group followed by two one-character literals needs that pair later. */
  lemma {:induction false} HoleNeedsLaterPair(n: string, a: string, b: string, rest: seq<Piece>, text: string, q: nat)
    requires |a| == 1 && |b| == 1
    requires q <= |text| && MatchAt([Hole(n)] + ([Lit(a)] + ([Lit(b)] + rest)), text, q).Some?
    ensures exists j :: q < j && j + 1 < |text| && text[j] == a[0] && text[j + 1] == b[0]
  {
    var t := [Hole(n)] + ([Lit(a)] + ([Lit(b)] + rest));
    var m := MatchAt(t, text, q).value;
    MatchAtSound(t, text, q);
    assert t[1..] == [Lit(a)] + ([Lit(b)] + rest) && t[1..][1..] == [Lit(b)] + rest;
    assert t[1..][1..][1..] == rest;
    var c := m.caps;
    assert HoleNames(t) == [n] + HoleNames(t[1..]);
    assert HoleNames(t[1..]) == HoleNames(t[1..][1..]) == HoleNames(rest);
    assert Fill(t[1..][1..], c[1..]) == b + Fill(rest, c[1..]);
    assert Fill(t[1..], c[1..]) == a + Fill(t[1..][1..], c[1..]);
    assert Fill(t, c) == c[0] + Fill(t[1..], c[1..]);
    var j := q + |c[0]|;
    assert text[q..m.end][|c[0]|] == a[0] && text[q..m.end][|c[0]| + 1] == b[0];
    assert text[j] == a[0] && text[j + 1] == b[0];
  }


  /** `{z}"` from `p4` to the closing quote at the end of the text. */
  lemma {:induction false} DestinationStep(z: string, text: string, p4: nat)
    requires p4 + 1 < |text| && text[|text| - 1] == '"'
    requires forall i :: p4 <= i < |text| ==> text[i] != '\n'
    ensures MatchAt([Hole(z)] + [Lit("\"")], text, p4) == Some(Match(|text|, [text[p4..|text| - 1]]))
  {
    var r: seq<Piece> := [Lit("\"")];
    assert r == [Lit("\"")] + [];
    HoleFront(z, r, text, p4);
    LitFront("\"", [], text, |text| - 1);
    assert text[|text| - 1..|text|] == "\"";
    var m := Match(|text|, []);
    assert MatchAt(r, text, |text| - 1) == Some(m);
    LitFront("\"", [], text, |text|);
    GreedyStopsAt(r, text, p4, |text| - 1 - p4, m);
    assert [text[p4..p4 + (|text| - 1 - p4)]] + [] == [text[p4..|text| - 1]];
  }

  /** The part of the connection template after the source group. */
  function AfterSource(z: string): seq<Piece> {
    [Lit("\"")] + ([Lit(" ")] + ([Lit("\"")] + ([Hole(z)] + [Lit("\"")])))
  }

  /** The facts about a connection-shaped text that the greedy search needs:
      where its quotes and spaces after the command are. */
  predicate ConnectShaped(text: string, p1: nat, p3: nat) {
    && 0 < p1 && p1 + 2 < p3 && p3 + 4 < |text|
    && (forall i :: 0 <= i < |text| ==> text[i] != '\n')
    && text[p1] == ' ' && text[p1 + 1] == '"' && text[p3] == '"' && text[p3 + 1] == ' '
    && text[p3 + 2] == '"' && text[|text| - 1] == '"'
    && (forall i :: p1 < i < |text| && text[i] == '"' ==>
          i == p1 + 1 || i == p3 || i == p3 + 2 || i == |text| - 1)
    && (forall i :: p1 < i < |text| && text[i] == ' ' ==> i == p3 + 1)
  }

  /** The literals `" "` between the plugs, then the destination group. */
  lemma {:induction false} AfterSourceAt(z: string, text: string, p3: nat)
    requires p3 + 4 < |text| && text[p3] == '"' && text[p3 + 1] == ' ' && text[p3 + 2] == '"'
    requires text[|text| - 1] == '"'
    requires forall i :: p3 + 3 <= i < |text| ==> text[i] != '\n'
    ensures MatchAt(AfterSource(z), text, p3) == Some(Match(|text|, [text[p3 + 3..|text| - 1]]))
  {
    var d := [Hole(z)] + [Lit("\"")];
    DestinationStep(z, text, p3 + 3);
    assert text[p3..p3 + 1] == "\"" && text[p3 + 1..p3 + 2] == " " && text[p3 + 2..p3 + 3] == "\"";
    LitFront("\"", d, text, p3 + 2);
    LitFront(" ", [Lit("\"")] + d, text, p3 + 1);
    LitFront("\"", [Lit(" ")] + ([Lit("\"")] + d), text, p3);
  }



  lemma {:induction false} SourceStep(y: string, z: string, text: string, p1: nat, p3: nat)
    requires ConnectShaped(text, p1, p3)
    ensures MatchAt([Hole(y)] + AfterSource(z), text, p1 + 2) ==
      Some(Match(|text|, [text[p1 + 2..p3], text[p3 + 3..|text| - 1]]))
  {
    var r := AfterSource(z);
    AfterSourceAt(z, text, p3);
    var m := Match(|text|, [text[p3 + 3..|text| - 1]]);
    SourceLater(z, text, p1, p3);
    HoleFront(y, r, text, p1 + 2);
    GreedyStopsAt(r, text, p1 + 2, p3 - p1 - 2, m);
    assert [text[p1 + 2..p1 + 2 + (p3 - p1 - 2)]] + m.caps ==
      [text[p1 + 2..p3], text[p3 + 3..|text| - 1]];
  }

  lemma {:induction false} SourceLater(z: string, text: string, p1: nat, p3: nat)
    requires ConnectShaped(text, p1, p3)
    ensures forall q :: p3 < q <= |text| ==> MatchAt(AfterSource(z), text, q).None?
  {
    var r := AfterSource(z);
    var d := [Hole(z)] + [Lit("\"")];
    forall q | p3 < q <= |text| ensures MatchAt(r, text, q).None? {
      LitFront("\"", [Lit(" ")] + ([Lit("\"")] + d), text, q);
      if q + 1 <= |text| && text[q..q + 1] == "\"" {
        assert text[q] == text[q..q + 1][0];
        LitFront(" ", [Lit("\"")] + d, text, q + 1);
        if q + 2 <= |text| {
          assert text[q + 1..q + 2][0] == text[q + 1];
          assert text[q + 1] != ' ';
        }
      }
    }
  }

  lemma {:induction false} CommandLater(y: string, z: string, text: string, p1: nat, p3: nat)
    requires ConnectShaped(text, p1, p3)
    ensures forall q :: p1 < q <= |text| ==>
      MatchAt([Lit(" ")] + ([Lit("\"")] + ([Hole(y)] + AfterSource(z))), text, q).None?
  {
    var r := AfterSource(z);
    var rest := [Lit("\"")] + ([Hole(z)] + [Lit("\"")]);
    forall q | p1 < q <= |text| ensures MatchAt([Lit(" ")] + ([Lit("\"")] + ([Hole(y)] + r)), text, q).None? {
      LitFront(" ", [Lit("\"")] + ([Hole(y)] + r), text, q);
      if q + 1 <= |text| && text[q..q + 1] == " " {
        assert text[q] == text[q..q + 1][0];
        assert q == p3 + 1;
        LitFront("\"", [Hole(y)] + r, text, q + 1);
        assert text[q + 1..q + 2] == "\"" by { assert text[q + 1..q + 2] == [text[q + 1]]; }
        if MatchAt([Hole(y)] + r, text, q + 2).Some? {
          HoleNeedsLaterPair(y, "\"", " ", rest, text, q + 2);
          assert false;
        }
      }
    }
  }


  /** Connection-shaped text: `c "s" "d"` where `s` and `d` hold no quote,
      space or newline, and `c` no quote or newline. The three groups
      capture `c`, `s` and `d`. */
  lemma {:induction false} ConnectFields(c: string, s: string, d: string)
    requires c != [] && '\n' !in c && '"' !in c
    requires s != [] && ' ' !in s && '\n' !in s && '"' !in s
    requires d != [] && ' ' !in d && '\n' !in d && '"' !in d
    ensures var text := c + " \"" + s + "\" \"" + d + "\"";
      Search(text, ConnectTemplate) == Some(Found(0, Match(|text|, [c, s, d])))
  {
    var text := c + " \"" + s + "\" \"" + d + "\"";
    var p1 := |c|;
    var p3 := p1 + 2 + |s|;
    ConnectTextShaped(c, s, d);
    ConnectSearch("command", "source", "destination", text, p1, p3);
  }

  lemma {:induction false} ConnectTextShaped(c: string, s: string, d: string)
    requires c != [] && '\n' !in c && '"' !in c
    requires s != [] && ' ' !in s && '\n' !in s && '"' !in s
    requires d != [] && ' ' !in d && '\n' !in d && '"' !in d
    ensures var text := c + " \"" + s + "\" \"" + d + "\"";
      var p1 := |c|; var p3 := p1 + 2 + |s|;
      && ConnectShaped(text, p1, p3)
      && text[..p1] == c && text[p1 + 2..p3] == s && text[p3 + 3..|text| - 1] == d
  {
    var text := c + " \"" + s + "\" \"" + d + "\"";
    var p1 := |c|;
    var p3 := p1 + 2 + |s|;
    assert text[..p1] == c && text[p1 + 2..p3] == s && text[p3 + 3..|text| - 1] == d;
    forall i | 0 <= i < |text|
      ensures text[i] != '\n'
      ensures p1 < i && text[i] == '"' ==> i == p1 + 1 || i == p3 || i == p3 + 2 || i == |text| - 1
      ensures p1 < i && text[i] == ' ' ==> i == p3 + 1
    {
      if i < p1 { assert text[i] == c[i]; }
      else if p1 + 1 < i < p3 { assert text[i] == s[i - p1 - 2]; }
      else if p3 + 2 < i < |text| - 1 { assert text[i] == d[i - p3 - 3]; }
    }
  }

  /** The connection template on connection-shaped text. */
  lemma {:induction false} ConnectSearch(x: string, y: string, z: string, text: string, p1: nat, p3: nat)
    requires ConnectShaped(text, p1, p3)
    ensures Search(text, [Hole(x)] + ([Lit(" ")] + ([Lit("\"")] + ([Hole(y)] + AfterSource(z))))) ==
      Some(Found(0, Match(|text|, [text[..p1], text[p1 + 2..p3], text[p3 + 3..|text| - 1]])))
  {
    var r := AfterSource(z);
    var r0 := [Lit(" ")] + ([Lit("\"")] + ([Hole(y)] + r));
    var t := [Hole(x)] + r0;
    SourceStep(y, z, text, p1, p3);
    LitFront(" ", [Lit("\"")] + ([Hole(y)] + r), text, p1);
    LitFront("\"", [Hole(y)] + r, text, p1 + 1);
    assert text[p1..p1 + 1] == " " && text[p1 + 1..p1 + 2] == "\"";
    var m := Match(|text|, [text[p1 + 2..p3], text[p3 + 3..|text| - 1]]);
    assert MatchAt(r0, text, p1) == Some(m);
    CommandLater(y, z, text, p1, p3);
    HoleFront(x, r0, text, 0);
    GreedyStopsAt(r0, text, 0, p1, m);
    assert [text[0..p1]] + m.caps == [text[..p1], text[p1 + 2..p3], text[p3 + 3..|text| - 1]];
    assert Search(text, t) == SearchFrom(text, t, 0);
  }

}
