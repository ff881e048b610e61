/** String operations with the meaning the Python 2 builtins and `re` idioms
    of the scripts give them: `split`/`join`, `replace`, `rfind`, the `\s` and
    `\S+` character classes, `re.sub('\s+', ' ', …)`, decimal formatting and
    the byte-wise ordering that `sorted` applies to `str`. */
module Text {
  import opened Lists

  /** `\s` of a Python 2 byte-string regex: space, \t, \n, \r, \v, \f. */
  predicate IsSpace(c: char) {
    c == ' ' || c == '\t' || c == '\n' || c == '\r' || c == '\U{000B}' || c == '\U{000C}'
  }

  predicate NoSpace(s: string) {
    forall i :: 0 <= i < |s| ==> !IsSpace(s[i])
  }

  // ---------------------------------------------------------------------
  // split / join / rfind

  /** `s.split(c)` for a one-character separator. */
  function Split(s: string, c: char): (r: seq<string>)
    ensures |r| >= 1
    ensures |r| == 1 <==> c !in s
    ensures forall i :: 0 <= i < |r| ==> c !in r[i]
  {
    if s == [] then [""]
    else
      var rest := Split(s[1..], c);
      if s[0] == c then [""] + rest else [[s[0]] + rest[0]] + rest[1..]
  }

  /** `sep.join(parts)`. */
  function Join(parts: seq<string>, sep: char): string
  {
    if parts == [] then ""
    else if |parts| == 1 then parts[0]
    else parts[0] + [sep] + Join(parts[1..], sep)
  }

  /** `s.rfind(c)`: the last index of `c`, or -1. */
  function LastIndex(s: string, c: char): (r: int)
    ensures -1 <= r < |s|
    ensures r >= 0 ==> s[r] == c
    ensures forall k :: r < k < |s| ==> s[k] != c
    ensures r == -1 <==> c !in s
  {
    if s == [] then -1
    else
      var k := LastIndex(s[1..], c);
      if k >= 0 then k + 1 else if s[0] == c then 0 else -1
  }

  /** Splitting and joining again is the identity. */
  lemma {:induction false} JoinSplit(s: string, c: char)
    ensures Join(Split(s, c), c) == s
  {
    if s != [] {
      JoinSplit(s[1..], c);
      var rest := Split(s[1..], c);
      if s[0] == c {
        assert Split(s, c) == [""] + rest;
      } else {
        assert Split(s, c) == [[s[0]] + rest[0]] + rest[1..];
        if |rest| > 1 {
          assert Join(rest, c) == rest[0] + [c] + Join(rest[1..], c);
        }
      }
    }
  }

  /** A separator splits the text into the parts before and after it. */
  lemma {:induction false} SplitAppend(x: string, y: string, c: char)
    ensures Split(x + [c] + y, c) == Split(x, c) + Split(y, c)
    decreases |x|
  {
    if x == [] {
      assert (x + [c] + y)[1..] == y;
    } else {
      assert (x + [c] + y)[1..] == x[1..] + [c] + y;
      SplitAppend(x[1..], y, c);
    }
  }

  /** Text without the separator is one part. */
  lemma {:induction false} SplitNone(s: string, c: char)
    requires c !in s
    ensures Split(s, c) == [s]
  {
    JoinSplit(s, c);
  }

  /** `s.split(c)[-1]` is the text after the last `c` (all of `s` without one). */
  lemma {:induction false} LastSegment(s: string, c: char)
    ensures var parts := Split(s, c); parts[|parts| - 1] == s[LastIndex(s, c) + 1..]
  {
    if s != [] {
      LastSegment(s[1..], c);
      var rest := Split(s[1..], c);
      if s[0] == c {
        assert Split(s, c) == [""] + rest;
      } else {
        assert Split(s, c) == [[s[0]] + rest[0]] + rest[1..];
        if |rest| == 1 {
          assert s == [s[0]] + s[1..];
        }
      }
    }
  }

  /** Joining one more part adds the separator and that part. */
  lemma {:induction false} JoinSnoc(parts: seq<string>, last: string, c: char)
    requires parts != []
    ensures Join(parts + [last], c) == Join(parts, c) + [c] + last
    decreases |parts|
  {
    if |parts| > 1 {
      assert (parts + [last])[1..] == parts[1..] + [last];
      JoinSnoc(parts[1..], last, c);
    }
  }

  /** `c.join(s.split(c)[:-1])` is the text before the last `c` (empty without one). */
  lemma {:induction false} AllButLastSegment(s: string, c: char)
    ensures var parts := Split(s, c);
      Join(parts[..|parts| - 1], c) == if c in s then s[..LastIndex(s, c)] else ""
  {
    var parts := Split(s, c);
    var init := parts[..|parts| - 1];
    var last := parts[|parts| - 1];
    if c in s {
      assert parts == init + [last];
      JoinSplit(s, c);
      JoinSnoc(init, last, c);
      LastSegment(s, c);
      var k := LastIndex(s, c);
      var front := Join(init, c);
      assert s == front + [c] + s[k + 1..];
      assert |front| == k;
      assert s[..k] == front;
    }
  }


  // ---------------------------------------------------------------------
  // replace

  /** `s.replace(pat, rep)`: non-overlapping occurrences, left to right. */
  function ReplaceAll(s: string, pat: string, rep: string): string
    requires pat != []
    decreases |s|
  {
    if |s| < |pat| then s
    else if s[..|pat|] == pat then rep + ReplaceAll(s[|pat|..], pat, rep)
    else [s[0]] + ReplaceAll(s[1..], pat, rep)
  }

  /** `re.sub(p, '', s)` for a pattern `p` without metacharacters: every
      occurrence is removed; the empty pattern removes nothing. */
  function RemoveLiteral(s: string, p: string): string {
    if p == [] then s else ReplaceAll(s, p, "")
  }

  /** Replacing one character by another changes exactly those positions. */
  lemma {:induction false} ReplaceCharAt(s: string, a: char, b: char)
    ensures |ReplaceAll(s, [a], [b])| == |s|
    ensures forall i :: 0 <= i < |s| ==> ReplaceAll(s, [a], [b])[i] == if s[i] == a then b else s[i]
  {
    if s != [] {
      ReplaceCharAt(s[1..], a, b);
      assert s[..1] == [s[0]];
    }
  }

  /** Replacing a character by nothing leaves none of it. */
  lemma {:induction false} ReplaceRemoves(s: string, c: char)
    ensures c !in ReplaceAll(s, [c], "")
    decreases |s|
  {
    if s != [] {
      ReplaceRemoves(s[1..], c);
      assert s[..1] == [s[0]];
    }
  }

  /** A pattern whose last character never occurs in `s` replaces nothing. */
  lemma {:induction false} ReplaceAbsent(s: string, pat: string, rep: string)
    requires pat != [] && pat[|pat| - 1] !in s
    ensures ReplaceAll(s, pat, rep) == s
  {
    if |s| >= |pat| {
      assert s[..|pat|] != pat by {
        assert s[..|pat|][|pat| - 1] == s[|pat| - 1];
      }
      ReplaceAbsent(s[1..], pat, rep);
      assert s == [s[0]] + s[1..];
    }
  }

  /** `pat` at the front is replaced once and the scan goes on after it. */
  lemma {:induction false} ReplaceAtFront(pat: string, t: string, rep: string)
    requires pat != []
    ensures ReplaceAll(pat + t, pat, rep) == rep + ReplaceAll(t, pat, rep)
  {
    assert (pat + t)[..|pat|] == pat;
    assert (pat + t)[|pat|..] == t;
  }

  // ---------------------------------------------------------------------
  // whitespace and tokens

  /** Length of the maximal `\S` run at the front of `s`. */
  function TokenLen(s: string): (r: nat)
    ensures r <= |s| && NoSpace(s[..r])
    ensures r == |s| || IsSpace(s[r])
  {
    if s == [] || IsSpace(s[0]) then 0
    else
      var k := TokenLen(s[1..]);
      assert s[..k + 1] == [s[0]] + s[1..][..k];
      k + 1
  }

  /** Length of the maximal `\s` run at the front of `s`. */
  function SpaceLen(s: string): (r: nat)
    ensures r <= |s|
    ensures forall i :: 0 <= i < r ==> IsSpace(s[i])
    ensures r == |s| || !IsSpace(s[r])
  {
    if s == [] || !IsSpace(s[0]) then 0 else 1 + SpaceLen(s[1..])
  }

  /** `re.findall(r'\S+', s)[0]`, or None where Python raises IndexError
      because `s` holds no non-whitespace character. The token is the first
      maximal non-whitespace run, after the leading whitespace. */
  function FirstToken(s: string): (r: Option<string>)
    ensures r.None? <==> forall i :: 0 <= i < |s| ==> IsSpace(s[i])
    ensures r.Some? ==> r.value != [] && NoSpace(r.value)
    ensures r.Some? ==>
      var k := SpaceLen(s);
      && k + |r.value| <= |s| && s[k..k + |r.value|] == r.value
      && (k + |r.value| == |s| || IsSpace(s[k + |r.value|]))
  {
    var k := SpaceLen(s);
    if k == |s| then None
    else
      var n := TokenLen(s[k..]);
      assert s[k..][..n] == s[k..k + n];
      Some(s[k..k + n])
  }

  /** `re.sub('\s+', ' ', s)`: every whitespace run becomes one space. */
  function Collapse(s: string): (r: string)
    ensures forall i :: 0 <= i < |r| ==> !IsSpace(r[i]) || r[i] == ' '
    ensures forall i :: 0 <= i < |r| - 1 ==> !(r[i] == ' ' && r[i + 1] == ' ')
    ensures r == [] || s == [] || (r[0] == ' ' <==> IsSpace(s[0]))
    decreases |s|
  {
    if s == [] then []
    else if IsSpace(s[0]) then
      var n := SpaceLen(s);
      var tail := Collapse(s[n..]);
      assert tail != [] ==> tail[0] != ' ';
      " " + tail
    else [s[0]] + Collapse(s[1..])
  }

  /** `re.findall(r'\S+', s)`: the maximal non-whitespace runs, in order. */
  function Words(s: string): (r: seq<string>)
    ensures forall i :: 0 <= i < |r| ==> r[i] != [] && NoSpace(r[i])
    decreases |s|
  {
    if s == [] then []
    else if IsSpace(s[0]) then Words(s[1..])
    else
      var n := TokenLen(s);
      [s[..n]] + Words(s[n..])
  }

  /** Leading whitespace holds no word. */
  lemma {:induction false} WordsSkipSpaces(s: string, n: nat)
    requires n <= |s| && forall i :: 0 <= i < n ==> IsSpace(s[i])
    ensures Words(s) == Words(s[n..])
    decreases n
  {
    if n > 0 {
      WordsSkipSpaces(s[1..], n - 1);
      assert s[1..][n - 1..] == s[n..];
    }
  }

  /** A word followed by nothing or by whitespace is the first word. */
  lemma {:induction false} WordsCons(w: string, rest: string)
    requires w != [] && NoSpace(w) && (rest == [] || IsSpace(rest[0]))
    ensures Words(w + rest) == [w] + Words(rest)
  {
    TokenLenOf(w, rest);
    assert (w + rest)[..|w|] == w && (w + rest)[|w|..] == rest;
  }

  lemma {:induction false} TokenLenOf(w: string, rest: string)
    requires NoSpace(w) && (rest == [] || IsSpace(rest[0]))
    ensures TokenLen(w + rest) == |w|
    decreases |w|
  {
    if w == [] {
      assert w + rest == rest;
    } else {
      TokenLenOf(w[1..], rest);
      assert (w + rest)[1..] == w[1..] + rest;
    }
  }

  /** Collapsing passes the first run of non-whitespace through unchanged. */
  lemma {:induction false} CollapseFront(u: string)
    ensures Collapse(u) == u[..TokenLen(u)] + Collapse(u[TokenLen(u)..])
    decreases |u|
  {
    if u != [] && !IsSpace(u[0]) {
      var m := TokenLen(u);
      CollapseFront(u[1..]);
      assert u[1..][..m - 1] == u[1..m] && u[1..][m - 1..] == u[m..];
      assert [u[0]] + u[1..m] == u[..m];
    }
  }

  /** Collapsing whitespace keeps the words: `re.findall(r'\S+', …)` of the
      result is that of the input. */
  lemma {:induction false} CollapseWords(s: string)
    ensures Words(Collapse(s)) == Words(s)
    decreases |s|
  {
    if s != [] {
      if IsSpace(s[0]) {
        var n := SpaceLen(s);
        var t := Collapse(s[n..]);
        CollapseWords(s[n..]);
        WordsSkipSpaces(s, n);
        assert (" " + t)[1..] == t;
      } else {
        var m := TokenLen(s);
        CollapseFront(s);
        WordsCons(s[..m], Collapse(s[m..]));
        CollapseWords(s[m..]);
      }
    }
  }

  /** The result is empty exactly when the input is, and ends in a space
      exactly when the input ends in whitespace. */
  lemma {:induction false} CollapseEnds(s: string)
    ensures Collapse(s) == [] <==> s == []
    ensures s != [] ==> (Collapse(s)[|Collapse(s)| - 1] == ' ' <==> IsSpace(s[|s| - 1]))
    decreases |s|
  {
    if s != [] {
      if IsSpace(s[0]) {
        var n := SpaceLen(s);
        CollapseEnds(s[n..]);
        if n < |s| {
          assert s[n..][|s[n..]| - 1] == s[|s| - 1];
        }
      } else {
        CollapseEnds(s[1..]);
        if |s| > 1 {
          assert s[1..][|s| - 2] == s[|s| - 1];
        }
      }
    }
  }

  /** `re.findall(r'-\S+', s)`: a dash and the non-whitespace run after it. */
  function DashFlags(s: string): (r: seq<string>)
    ensures forall i :: 0 <= i < |r| ==> |r[i]| >= 2 && r[i][0] == '-' && NoSpace(r[i])
    decreases |s|
  {
    if |s| < 2 then []
    else if s[0] == '-' && !IsSpace(s[1]) then
      var n := 1 + TokenLen(s[1..]);
      assert s[..n] == [s[0]] + s[1..][..n - 1];
      [s[..n]] + DashFlags(s[n..])
    else DashFlags(s[1..])
  }

  /** `re.findall(r'-\S+\s\S+', s)`: a dash, its word, one whitespace
      character and the next word. The first `\S+` is greedy and cannot give
      back characters (a shorter run is followed by a non-space), so a dash
      either matches with its whole word or not at all. */
  function DashFlagsWithValue(s: string): (r: seq<string>)
    ensures forall i :: 0 <= i < |r| ==> |r[i]| >= 4 && r[i][0] == '-'
    decreases |s|
  {
    if |s| < 4 || s[0] != '-' then (if s == [] then [] else DashFlagsWithValue(s[1..]))
    else
      var k := TokenLen(s[1..]);
      if k == 0 || 2 + k >= |s| then DashFlagsWithValue(s[1..])
      else
        var m := TokenLen(s[2 + k..]);
        if m == 0 then DashFlagsWithValue(s[1..])
        else [s[..2 + k + m]] + DashFlagsWithValue(s[2 + k + m..])
  }

  /** Without a dash there is no flag to find. */
  lemma {:induction false} DashFlagsNone(s: string)
    requires '-' !in s
    ensures DashFlags(s) == []
    decreases |s|
  {
    if |s| >= 2 {
      DashFlagsNone(s[1..]);
    }
  }

  lemma {:induction false} DashFlagsWithValueNone(s: string)
    requires '-' !in s
    ensures DashFlagsWithValue(s) == []
    decreases |s|
  {
    if s != [] {
      DashFlagsWithValueNone(s[1..]);
    }
  }

  /** Text whose only whitespace is single spaces. */
  predicate Tidy(s: string) {
    forall i :: 0 <= i < |s| && IsSpace(s[i]) ==> s[i] == ' ' && (i + 1 == |s| || !IsSpace(s[i + 1]))
  }

  /** Collapsing whitespace leaves tidy text as it is. */
  lemma {:induction false} CollapseTidy(s: string)
    requires Tidy(s)
    ensures Collapse(s) == s
    decreases |s|
  {
    if s != [] {
      assert Tidy(s[1..]) by {
        forall i | 0 <= i < |s[1..]| && IsSpace(s[1..][i])
          ensures s[1..][i] == ' ' && (i + 1 == |s[1..]| || !IsSpace(s[1..][i + 1]))
        {
          assert s[1..][i] == s[i + 1];
        }
      }
      CollapseTidy(s[1..]);
      if IsSpace(s[0]) {
        assert SpaceLen(s) == 1 by {
          if |s| > 1 { assert !IsSpace(s[1]); }
        }
        assert s == " " + s[1..];
      }
    }
  }

  // ---------------------------------------------------------------------
  // decimal numbers

  function Digit(d: nat): char
    requires d < 10
  {
    "0123456789"[d]
  }

  predicate AllDigits(s: string) {
    forall i :: 0 <= i < |s| ==> '0' <= s[i] <= '9'
  }

  /** `str(n)` / `'%d' % n` for a non-negative integer. */
  function NatToDecimal(n: nat): (r: string)
    ensures r != [] && AllDigits(r)
    decreases n
  {
    if n < 10 then [Digit(n)] else NatToDecimal(n / 10) + [Digit(n % 10)]
  }

  /** `str(i)` for any integer. */
  function IntToDecimal(i: int): string {
    if i < 0 then "-" + NatToDecimal(-i) else NatToDecimal(i)
  }

  /** The value of a string of decimal digits (leading zeros allowed). */
  function DecimalValue(s: string): nat
    requires AllDigits(s)
  {
    if s == [] then 0 else DecimalValue(s[..|s| - 1]) * 10 + (s[|s| - 1] as int - '0' as int)
  }

  /** Python's `int(s)` for an optional minus sign followed by digits. */
  function SignedValue(s: string): int
    requires s != [] && (if s[0] == '-' then AllDigits(s[1..]) else AllDigits(s))
  {
    if s[0] == '-' then var v: int := DecimalValue(s[1..]); -v else DecimalValue(s)
  }

  lemma {:induction false} DigitsOnly(s: string)
    requires AllDigits(s)
    ensures '\n' !in s && '"' !in s && '-' !in s
  {
  }

  /** `str(i)` reads back as `i`, and has no line break or quote. */
  lemma {:induction false} IntRoundTrip(i: int)
    ensures var s := IntToDecimal(i);
      && s != [] && (if s[0] == '-' then AllDigits(s[1..]) else AllDigits(s))
      && SignedValue(s) == i
      && '\n' !in s && '"' !in s
  {
    var s := IntToDecimal(i);
    if i < 0 {
      var d := NatToDecimal(-i);
      DecimalRoundTrip(-i);
      DigitsOnly(d);
      assert s == "-" + d && s[1..] == d;
    } else {
      DecimalRoundTrip(i);
      DigitsOnly(s);
    }
  }

  /** `'%0*d' % (width, n)`: pad with zeros on the left up to `width` characters. */
  function ZeroPad(s: string, width: nat): (r: string)
    ensures |r| == if |s| >= width then |s| else width
    ensures |s| <= |r| && r[|r| - |s|..] == s
    ensures forall i :: 0 <= i < |r| - |s| ==> r[i] == '0'
  {
    if |s| >= width then s else seq(width - |s|, _ => '0') + s
  }

  lemma {:induction false} DecimalRoundTrip(n: nat)
    ensures DecimalValue(NatToDecimal(n)) == n
    decreases n
  {
    if n >= 10 {
      DecimalRoundTrip(n / 10);
      var s := NatToDecimal(n);
      assert s[..|s| - 1] == NatToDecimal(n / 10);
    }
  }

  /** Leading zeros do not change the value. */
  lemma {:induction false} LeadingZeros(z: nat, s: string)
    requires AllDigits(s)
    ensures AllDigits(seq(z, _ => '0') + s)
    ensures DecimalValue(seq(z, _ => '0') + s) == DecimalValue(s)
    decreases |s|
  {
    var zs: string := seq(z, _ => '0');
    if s == [] {
      assert zs + s == zs;
      ZerosValue(z);
    } else {
      LeadingZeros(z, s[..|s| - 1]);
      assert (zs + s)[..|zs + s| - 1] == zs + s[..|s| - 1];
    }
  }

  lemma {:induction false} ZerosValue(z: nat)
    ensures AllDigits(seq(z, _ => '0'))
    ensures DecimalValue(seq(z, _ => '0')) == 0
  {
    if z > 0 {
      ZerosValue(z - 1);
      assert seq(z, _ => '0')[..z - 1] == seq(z - 1, _ => '0');
    }
  }

  /** A zero-padded decimal still reads back as the number. */
  lemma {:induction false} PaddedRoundTrip(n: nat, width: nat)
    ensures AllDigits(ZeroPad(NatToDecimal(n), width))
    ensures DecimalValue(ZeroPad(NatToDecimal(n), width)) == n
  {
    var s := NatToDecimal(n);
    var r := ZeroPad(s, width);
    var z := |r| - |s|;
    assert r == seq(z, _ => '0') + s;
    LeadingZeros(z, s);
    DecimalRoundTrip(n);
  }

  // ---------------------------------------------------------------------
  // ordering of Python 2 `str` values, and `sorted`

  /** `a <= b` on Python 2 strings: compare character codes, a proper prefix first. */
  predicate LessEq(a: string, b: string)
    decreases |a|
  {
    a == [] || (b != [] && (a[0] < b[0] || (a[0] == b[0] && LessEq(a[1..], b[1..]))))
  }

  lemma {:induction false} LessEqTotal(a: string, b: string)
    ensures LessEq(a, b) || LessEq(b, a)
    decreases |a|
  {
    if a != [] && b != [] && a[0] == b[0] {
      LessEqTotal(a[1..], b[1..]);
    }
  }

  lemma {:induction false} LessEqTrans(a: string, b: string, c: string)
    requires LessEq(a, b) && LessEq(b, c)
    ensures LessEq(a, c)
    decreases |a|
  {
    if a != [] && a[0] == b[0] && b[0] == c[0] {
      LessEqTrans(a[1..], b[1..], c[1..]);
    }
  }

  lemma {:induction false} LessEqAntisym(a: string, b: string)
    requires LessEq(a, b) && LessEq(b, a)
    ensures a == b
    decreases |a|
  {
    if a != [] {
      LessEqAntisym(a[1..], b[1..]);
      assert a == [a[0]] + a[1..] && b == [b[0]] + b[1..];
    }
  }

  predicate Sorted(s: seq<string>) {
    forall i, j :: 0 <= i < j < |s| ==> LessEq(s[i], s[j])
  }

  function Insert(x: string, s: seq<string>): seq<string>
  {
    if s == [] then [x]
    else if LessEq(x, s[0]) then [x] + s
    else [s[0]] + Insert(x, s[1..])
  }

  /** `sorted(xs)` for a list of strings (insertion sort). */
  function SortStrings(xs: seq<string>): seq<string>
  {
    if xs == [] then [] else Insert(xs[0], SortStrings(xs[1..]))
  }

  lemma {:induction false} InsertSorted(x: string, s: seq<string>)
    requires Sorted(s)
    ensures Sorted(Insert(x, s))
    ensures multiset(Insert(x, s)) == multiset(s) + multiset{x}
  {
    if s != [] {
      assert s == [s[0]] + s[1..];
      if LessEq(x, s[0]) {
        forall j | 0 <= j < |s| ensures LessEq(x, s[j]) {
          if j > 0 { LessEqTrans(x, s[0], s[j]); }
        }
        InsertFront(x, s);
      } else {
        LessEqTotal(x, s[0]);
        InsertSorted(x, s[1..]);
        var t := Insert(x, s[1..]);
        forall y | y in t ensures LessEq(s[0], y) {
          assert y in multiset(t);
        }
        InsertFront(s[0], t);
      }
    }
  }

  /** Putting an element that is below all others in front keeps order. */
  lemma {:induction false} InsertFront(x: string, t: seq<string>)
    requires Sorted(t)
    requires forall y :: y in t ==> LessEq(x, y)
    ensures Sorted([x] + t)
  {
    var r := [x] + t;
    forall i, j | 0 <= i < j < |r| ensures LessEq(r[i], r[j]) {
      if i > 0 {
        assert r[i] == t[i - 1] && r[j] == t[j - 1];
      } else {
        assert r[j] == t[j - 1];
      }
    }
  }

  /** `sorted` yields an ordered permutation of its input. */
  lemma {:induction false} SortStringsCorrect(xs: seq<string>)
    ensures Sorted(SortStrings(xs))
    ensures multiset(SortStrings(xs)) == multiset(xs)
  {
    if xs != [] {
      SortStringsCorrect(xs[1..]);
      InsertSorted(xs[0], SortStrings(xs[1..]));
      assert xs == [xs[0]] + xs[1..];
    }
  }
}
