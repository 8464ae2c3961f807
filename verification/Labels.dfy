/**
 * Label rendering of the metrics exposition: `_render_labels`, `_key` and
 * `escape_label_value`, against a left-to-right parser of the Prometheus text
 * format and an unescaping that reads one character at a time.
 */
module Labels {
  import opened Recency
  import opened Wrappers

  /** A label: name and value. A label dictionary is the list of its items, in insertion order, names distinct. */
  type Label = (string, string)

  const QUOTE: char := '\"'
  const BACKSLASH: char := '\\'

  // ----- escaping -----------------------------------------------------------------------

  /** `s.replace(c, sub)` for a one-character pattern. */
  function Replace(s: string, c: char, sub: string): string {
    if s == [] then []
    else (if s[0] == c then sub else [s[0]]) + Replace(s[1..], c, sub)
  }

  /** The two chained replacements inside `_render_labels`. */
  function Quoted(v: string): string {
    Replace(Replace(v, BACKSLASH, "\\\\"), QUOTE, "\\\"")
  }

  /** `escape_label_value`: the three chained replacements. */
  function EscapeLabelValue(v: string): string {
    Replace(Replace(Replace(v, BACKSLASH, "\\\\"), QUOTE, "\\\""), '\n', "\\n")
  }

  /** The characters one character is escaped to; a newline only when `newlines` asks for it. */
  function Escaped(c: char, newlines: bool): string {
    if c == BACKSLASH then "\\\\"
    else if c == QUOTE then "\\\""
    else if c == '\n' && newlines then "\\n"
    else [c]
  }

  /** Escaping in a single pass. */
  function OnePass(v: string, newlines: bool): string {
    if v == [] then [] else Escaped(v[0], newlines) + OnePass(v[1..], newlines)
  }

  lemma {:induction false} ReplaceConcat(a: string, b: string, c: char, sub: string)
    ensures Replace(a + b, c, sub) == Replace(a, c, sub) + Replace(b, c, sub)
  {
    if a == [] {
      assert a + b == b;
    } else {
      assert (a + b)[1..] == a[1..] + b;
      ReplaceConcat(a[1..], b, c, sub);
    }
  }

  lemma ReplaceOne(c: char, pattern: char, sub: string)
    ensures Replace([c], pattern, sub) == if c == pattern then sub else [c]
  {
    assert [c][1..] == [];
  }

  lemma ReplaceTwo(a: char, b: char, pattern: char, sub: string)
    requires a != pattern && b != pattern
    ensures Replace([a, b], pattern, sub) == [a, b]
  {
    assert [a, b] == [a] + [b];
    ReplaceConcat([a], [b], pattern, sub);
    ReplaceOne(a, pattern, sub);
    ReplaceOne(b, pattern, sub);
  }

  lemma QuoteAfterBackslash(c: char)
    ensures Replace(if c == BACKSLASH then "\\\\" else [c], QUOTE, "\\\"") == Escaped(c, false)
  {
    if c == BACKSLASH {
      ReplaceTwo(BACKSLASH, BACKSLASH, QUOTE, "\\\"");
    } else {
      ReplaceOne(c, QUOTE, "\\\"");
    }
  }

  lemma NewlineAfterBoth(c: char)
    ensures Replace(Escaped(c, false), '\n', "\\n") == Escaped(c, true)
  {
    if c == BACKSLASH {
      ReplaceTwo(BACKSLASH, BACKSLASH, '\n', "\\n");
    } else if c == QUOTE {
      ReplaceTwo(BACKSLASH, QUOTE, '\n', "\\n");
    } else {
      ReplaceOne(c, '\n', "\\n");
    }
  }

  /** The order of the chained replacements is right: no later one touches what an earlier one wrote. */
  lemma {:induction false} ChainIsOnePass(v: string)
    ensures Quoted(v) == OnePass(v, false)
    ensures EscapeLabelValue(v) == OnePass(v, true)
  {
    if v != [] {
      var c := v[0];
      var first := if c == BACKSLASH then "\\\\" else [c];
      ChainIsOnePass(v[1..]);
      ReplaceConcat(first, Replace(v[1..], BACKSLASH, "\\\\"), QUOTE, "\\\"");
      QuoteAfterBackslash(c);
      ReplaceConcat(Escaped(c, false), Quoted(v[1..]), '\n', "\\n");
      NewlineAfterBoth(c);
    }
  }

  /** The value an escape pair stands for. */
  function Meant(c: char): Option<char> {
    if c == BACKSLASH || c == QUOTE then Some(c)
    else if c == 'n' then Some('\n')
    else None
  }

  /** A quoted value up to its closing quote, and what follows the quote. */
  function ReadValue(s: string): Option<(string, string)> {
    if s == [] then None
    else if s[0] == QUOTE then Some(([], s[1..]))
    else if s[0] == BACKSLASH then
      if |s| < 2 || Meant(s[1]).None? then None
      else
        var tail := ReadValue(s[2..]);
        if tail.None? then None else Some(([Meant(s[1]).value] + tail.value.0, tail.value.1))
    else
      var tail := ReadValue(s[1..]);
      if tail.None? then None else Some(([s[0]] + tail.value.0, tail.value.1))
  }

  /** Reading one escaped character and going on. */
  lemma ReadEscaped(c: char, newlines: bool, tail: string)
    requires ReadValue(tail).Some?
    ensures var (v, rest) := ReadValue(tail).value;
            ReadValue(Escaped(c, newlines) + tail) == Some(([c] + v, rest))
  {
    var head := Escaped(c, newlines);
    assert (head + tail)[|head|..] == tail;
  }

  /** Reading undoes escaping, with or without newline escapes, whatever follows the closing quote. */
  lemma OnePassFollowed(v: string, newlines: bool, rest: string)
    ensures OnePass(v, newlines) + [QUOTE] + rest
            == if v == [] then [QUOTE] + rest
               else Escaped(v[0], newlines) + (OnePass(v[1..], newlines) + [QUOTE] + rest)
  {
    hide Escaped;
  }

  lemma {:induction false} ReadUndoesEscape(v: string, newlines: bool, rest: string)
    ensures ReadValue(OnePass(v, newlines) + [QUOTE] + rest) == Some((v, rest))
  {
    OnePassFollowed(v, newlines, rest);
    if v == [] {
      assert ([QUOTE] + rest)[1..] == rest;
    } else {
      hide ReadValue, Escaped, OnePass;
      ReadUndoesEscape(v[1..], newlines, rest);
      ReadEscaped(v[0], newlines, OnePass(v[1..], newlines) + [QUOTE] + rest);
      assert v == [v[0]] + v[1..];
    }
  }

  /** Unescaping inverts `escape_label_value` for every value. */
  lemma UnescapeInvertsEscape(v: string, rest: string)
    ensures ReadValue(EscapeLabelValue(v) + [QUOTE] + rest) == Some((v, rest))
  {
    ChainIsOnePass(v);
    ReadUndoesEscape(v, true, rest);
  }

  lemma {:induction false} NewlinesOfOnePass(v: string, newlines: bool)
    ensures '\n' in OnePass(v, newlines) <==> '\n' in v && !newlines
  {
    if v != [] {
      NewlinesOfOnePass(v[1..], newlines);
    }
  }

  /** `escape_label_value` never leaves a line break; `_render_labels` lets every one through. */
  lemma LineBreaksAfterEscaping(v: string)
    ensures '\n' !in EscapeLabelValue(v)
    ensures '\n' in Quoted(v) <==> '\n' in v
  {
    ChainIsOnePass(v);
    NewlinesOfOnePass(v, true);
    NewlinesOfOnePass(v, false);
  }

  // ----- sorting the labels -----------------------------------------------------------

  /** Code-point order on strings. */
  predicate Less(a: string, b: string) {
    if b == [] then false
    else if a == [] then true
    else a[0] < b[0] || (a[0] == b[0] && Less(a[1..], b[1..]))
  }

  /** One name comes before another where they first differ, by the smaller character or by ending there. */
  lemma {:induction false} LessIff(a: string, b: string)
    ensures Less(a, b)
       <==> exists k: nat :: k <= |a| && k < |b| && a[..k] == b[..k] && (k == |a| || a[k] < b[k])
  {
    if b != [] && a != [] {
      LessIff(a[1..], b[1..]);
      if Less(a, b) {
        if a[0] < b[0] {
          assert a[..0] == b[..0];
        } else {
          var a', b' := a[1..], b[1..];
          var k: nat :| k <= |a'| && k < |b'| && a'[..k] == b'[..k] && (k == |a'| || a'[k] < b'[k]);
          assert a[..k + 1] == [a[0]] + a[1..][..k] && b[..k + 1] == [b[0]] + b[1..][..k];
        }
      }
      if k: nat :| k <= |a| && k < |b| && a[..k] == b[..k] && (k == |a| || a[k] < b[k]) {
        if k > 0 {
          assert a[..k][0] == a[0] && b[..k][0] == b[0];
          assert a[1..][..k - 1] == a[..k][1..] && b[1..][..k - 1] == b[..k][1..];
        }
      }
    } else if b != [] {
      assert a[..0] == b[..0];
    }
  }

  lemma {:induction false} LessIsTotal(a: string, b: string)
    ensures a == b || Less(a, b) || Less(b, a)
    ensures !(Less(a, b) && Less(b, a)) && !Less(a, a)
  {
    if a != [] && b != [] {
      LessIsTotal(a[1..], b[1..]);
      assert a == [a[0]] + a[1..] && b == [b[0]] + b[1..];
    }
    if a != [] {
      LessIsTotal(a[1..], a[1..]);
    }
  }

  lemma {:induction false} LessIsTransitive(a: string, b: string, c: string)
    requires Less(a, b) && Less(b, c)
    ensures Less(a, c)
  {
    if a != [] && a[0] == b[0] == c[0] {
      LessIsTransitive(a[1..], b[1..], c[1..]);
    }
  }

  ghost predicate DistinctNames(ls: seq<Label>) {
    forall i, j :: 0 <= i < j < |ls| ==> ls[i].0 != ls[j].0
  }

  ghost predicate Sorted(ls: seq<Label>) {
    forall i, j :: 0 <= i < j < |ls| ==> Less(ls[i].0, ls[j].0)
  }

  function Insert(ls: seq<Label>, l: Label): (r: seq<Label>)
    ensures forall x :: x in r <==> x == l || x in ls
  {
    if ls == [] || Less(l.0, ls[0].0) then [l] + ls else [ls[0]] + Insert(ls[1..], l)
  }

  /** `sorted(labels.items())` */
  function SortedItems(labels: seq<Label>): (r: seq<Label>)
    ensures forall x :: x in r <==> x in labels
  {
    if labels == [] then [] else Insert(SortedItems(labels[1..]), labels[0])
  }

  lemma {:induction false} InsertSorts(ls: seq<Label>, l: Label)
    requires Sorted(ls) && forall x :: x in ls ==> x.0 != l.0
    ensures Sorted(Insert(ls, l))
  {
    if ls != [] {
      var rest, r := ls[1..], Insert(ls, l);
      InsertSorts(rest, l);
      LessIsTotal(ls[0].0, l.0);
      if Less(l.0, ls[0].0) {
        forall j | 1 <= j < |ls|
          ensures Less(l.0, ls[j].0)
        {
          LessIsTransitive(l.0, ls[0].0, ls[j].0);
        }
      } else {
        forall j | 0 <= j < |Insert(rest, l)|
          ensures Less(ls[0].0, Insert(rest, l)[j].0)
        {
          assert Insert(rest, l)[j] == l || Insert(rest, l)[j] in rest;
        }
      }
    }
  }

  lemma {:induction false} SortedItemsSorts(labels: seq<Label>)
    requires DistinctNames(labels)
    ensures Sorted(SortedItems(labels))
  {
    if labels != [] {
      SortedItemsSorts(labels[1..]);
      InsertSorts(SortedItems(labels[1..]), labels[0]);
    }
  }

  /** A set of labels has one sorted list. */
  lemma {:induction false} SortedListIsUnique(a: seq<Label>, b: seq<Label>)
    requires Sorted(a) && Sorted(b) && forall x :: x in a <==> x in b
    ensures a == b
  {
    EmptyTogether(a, b);
    if a != [] {
      assert a[0] in b && b[0] in a;
      FirstIsFirst(a, b);
      TailsAgree(a, b);
      SortedListIsUnique(a[1..], b[1..]);
      assert a == [a[0]] + a[1..] && b == [b[0]] + b[1..];
    }
  }

  lemma EmptyTogether(a: seq<Label>, b: seq<Label>)
    requires forall x :: x in a <==> x in b
    ensures a == [] <==> b == []
  {
    assert a != [] ==> a[0] in b;
    assert b != [] ==> b[0] in a;
  }

  lemma FirstIsFirst(a: seq<Label>, b: seq<Label>)
    requires Sorted(a) && Sorted(b) && a != [] && b != [] && a[0] in b && b[0] in a
    ensures a[0] == b[0]
  {
    if a[0] != b[0] {
      assert Less(a[0].0, b[0].0) && Less(b[0].0, a[0].0);
      LessIsTotal(a[0].0, b[0].0);
    }
  }

  lemma FirstIsApart(a: seq<Label>)
    requires Sorted(a) && a != []
    ensures forall x :: x in a[1..] <==> x in a && x != a[0]
  {
    LessIsTotal(a[0].0, a[0].0);
    assert a == [a[0]] + a[1..];
    assert a[0] !in a[1..];
  }

  lemma TailsAgree(a: seq<Label>, b: seq<Label>)
    requires Sorted(a) && Sorted(b) && a != [] && b != [] && a[0] == b[0] && forall x :: x in a <==> x in b
    ensures forall x :: x in a[1..] <==> x in b[1..]
  {
    FirstIsApart(a);
    FirstIsApart(b);
    forall x
      ensures x in a[1..] <==> x in b[1..]
    {
      assert x in a <==> x in b;
    }
  }

  // ----- rendering and parsing -----------------------------------------------------------

  /** `",".join(...)` over the items. */
  function Joined(ls: seq<Label>): string
    requires ls != []
  {
    var first := ls[0].0 + "=\"" + Quoted(ls[0].1) + "\"";
    if |ls| == 1 then first else first + "," + Joined(ls[1..])
  }

  /** `_render_labels` */
  function Render(labels: seq<Label>): string {
    if labels == [] then "" else "{" + Joined(SortedItems(labels)) + "}"
  }

  /** A label name: everything before the first `=`. */
  function NameLength(s: string): (n: nat)
    ensures n <= |s| && '=' !in s[..n]
    ensures n < |s| ==> s[n] == '='
  {
    if s == [] || s[0] == '=' then 0
    else
      assert s[..1 + NameLength(s[1..])] == [s[0]] + s[1..][..NameLength(s[1..])];
      1 + NameLength(s[1..])
  }

  /** One or more `name="value"` separated by commas, up to the closing brace that must end the text. */
  function ReadLabels(s: string): Option<seq<Label>>
    decreases |s|
  {
    var n := NameLength(s);
    if n + 1 >= |s| || s[n + 1] != QUOTE then None
    else
      var v := ReadValue(s[n + 2..]);
      if v.None? || v.value.1 == [] then None
      else
        var (value, rest) := v.value;
        if rest == "}" then Some([(s[..n], value)])
        else if rest[0] == ',' && |rest| < |s| then
          var more := ReadLabels(rest[1..]);
          if more.None? then None else Some([(s[..n], value)] + more.value)
        else None
  }

  /** A label block, read on over raw line breaks. */
  function ReadBlock(s: string): Option<seq<Label>> {
    if s == [] then Some([])
    else if s[0] == '{' then ReadLabels(s[1..])
    else None
  }

  /** The text format is made of lines: a block is on one line, or it is not a block. */
  function Parse(s: string): Option<seq<Label>> {
    if '\n' in s then None else ReadBlock(s)
  }

  ghost predicate ParsableNames(ls: seq<Label>) {
    forall i :: 0 <= i < |ls| ==> '=' !in ls[i].0
  }

  lemma {:induction false} NameEndsAtEquals(name: string, rest: string)
    requires '=' !in name
    ensures NameLength(name + "=" + rest) == |name|
  {
    if name != [] {
      assert (name + "=" + rest)[1..] == name[1..] + "=" + rest;
      NameEndsAtEquals(name[1..], rest);
    }
  }

  /** Reading one rendered label, whatever follows it. */
  lemma ReadOne(l: Label, rest: string)
    requires '=' !in l.0
    ensures var s := l.0 + "=\"" + Quoted(l.1) + "\"" + rest;
            && NameLength(s) == |l.0| && |l.0| + 1 < |s| && s[|l.0| + 1] == QUOTE && s[..|l.0|] == l.0
            && ReadValue(s[|l.0| + 2..]) == Some((l.1, rest))
  {
    var s := l.0 + "=\"" + Quoted(l.1) + "\"" + rest;
    var tail := "\"" + Quoted(l.1) + "\"" + rest;
    assert s == l.0 + "=" + tail;
    NameEndsAtEquals(l.0, tail);
    assert s[|l.0| + 2..] == Quoted(l.1) + [QUOTE] + rest;
    ChainIsOnePass(l.1);
    ReadUndoesEscape(l.1, false, rest);
  }

  lemma JoinedStep(ls: seq<Label>)
    requires ls != []
    ensures var first := ls[0].0 + "=\"" + Quoted(ls[0].1) + "\"";
            Joined(ls) == if |ls| == 1 then first else first + "," + Joined(ls[1..])
  {
    hide Quoted;
  }

  lemma Regrouped(a: string, b: string, c: string, d: string)
    ensures a + b + c + d == a + (b + c + d)
  {
  }

  lemma JoinedFrom(ls: seq<Label>, end: string)
    requires ls != []
    ensures Joined(ls) + end
            == ls[0].0 + "=\"" + Quoted(ls[0].1) + "\"" + (if |ls| == 1 then end else "," + Joined(ls[1..]) + end)
  {
    hide Joined, Quoted;
    JoinedStep(ls);
    if |ls| > 1 {
      Regrouped(ls[0].0 + "=\"" + Quoted(ls[0].1) + "\"", ",", Joined(ls[1..]), end);
    }
  }

  /** The last label of a block, and any other. */
  lemma ReadsLastLabel(l: Label)
    requires '=' !in l.0
    ensures ReadLabels(l.0 + "=\"" + Quoted(l.1) + "\"" + "}") == Some([l])
  {
    hide Quoted, ReadValue, NameLength;
    ReadOne(l, "}");
  }

  lemma ReadsLabel(l: Label, more: string)
    requires '=' !in l.0 && ReadLabels(more).Some?
    ensures ReadLabels(l.0 + "=\"" + Quoted(l.1) + "\"" + ("," + more)) == Some([l] + ReadLabels(more).value)
  {
    hide Quoted, ReadValue, NameLength;
    ReadOne(l, "," + more);
    assert ("," + more)[1..] == more;
  }

  lemma {:induction false} ReadUndoesJoin(ls: seq<Label>)
    requires ls != [] && ParsableNames(ls)
    ensures ReadLabels(Joined(ls) + "}") == Some(ls)
  {
    hide Quoted, ReadLabels, Joined;
    JoinedFrom(ls, "}");
    if |ls| == 1 {
      ReadsLastLabel(ls[0]);
      assert ls == [ls[0]];
    } else {
      ReadUndoesJoin(ls[1..]);
      ReadsLabel(ls[0], Joined(ls[1..]) + "}");
      assert "," + Joined(ls[1..]) + "}" == "," + (Joined(ls[1..]) + "}");
      assert ls == [ls[0]] + ls[1..];
    }
  }

  lemma SortedKeepsNames(labels: seq<Label>)
    requires ParsableNames(labels)
    ensures ParsableNames(SortedItems(labels))
  {
    var sorted := SortedItems(labels);
    forall i | 0 <= i < |sorted|
      ensures '=' !in sorted[i].0
    {
      assert sorted[i] in labels;
    }
  }

  lemma ParseJoined(sorted: seq<Label>)
    requires sorted != [] && ParsableNames(sorted)
    ensures ReadBlock("{" + Joined(sorted) + "}") == Some(sorted)
  {
    hide Joined, ReadLabels;
    ReadUndoesJoin(sorted);
    assert ("{" + Joined(sorted) + "}")[1..] == Joined(sorted) + "}";
  }

  lemma BlockHoldsLabels(labels: seq<Label>)
    requires ParsableNames(labels)
    ensures ReadBlock(Render(labels)) == Some(SortedItems(labels))
  {
    if labels != [] {
      hide Joined, ReadBlock;
      assert labels[0] in SortedItems(labels);
      SortedKeepsNames(labels);
      ParseJoined(SortedItems(labels));
    }
  }

  ghost predicate HasLineBreak(labels: seq<Label>) {
    exists l :: l in labels && ('\n' in l.0 || '\n' in l.1)
  }

  lemma {:induction false} LineBreaksOfJoined(ls: seq<Label>)
    requires ls != []
    ensures '\n' in Joined(ls) <==> HasLineBreak(ls)
  {
    var l, rest := ls[0], ls[1..];
    LineBreaksAfterEscaping(l.1);
    assert ls == [l] + rest;
    if rest != [] {
      LineBreaksOfJoined(rest);
    }
    assert HasLineBreak(ls) <==> '\n' in l.0 || '\n' in l.1 || HasLineBreak(rest);
  }

  lemma LineBreaksOfRender(labels: seq<Label>)
    ensures '\n' in Render(labels) <==> HasLineBreak(labels)
  {
    if labels != [] {
      hide Joined;
      assert labels[0] in SortedItems(labels);
      LineBreaksOfJoined(SortedItems(labels));
      assert HasLineBreak(SortedItems(labels)) <==> HasLineBreak(labels);
    }
  }

  /**
   * For names without an equals sign, a left-to-right parser of the text format
   * recovers exactly the sorted label list if and only if no label holds a line
   * break; otherwise it refuses the text.
   */
  lemma ParseRecoversLabels(labels: seq<Label>)
    requires ParsableNames(labels)
    ensures Parse(Render(labels)) == if HasLineBreak(labels) then None else Some(SortedItems(labels))
  {
    hide ReadBlock, Render, HasLineBreak, SortedItems;
    BlockHoldsLabels(labels);
    LineBreaksOfRender(labels);
  }

  /** Two label dictionaries render alike exactly when they hold the same labels, in whatever order they were built. */
  lemma RenderIdentifiesLabelSets(a: seq<Label>, b: seq<Label>)
    requires DistinctNames(a) && DistinctNames(b) && ParsableNames(a) && ParsableNames(b)
    ensures Render(a) == Render(b) <==> Elements(a) == Elements(b)
    ensures SortedItems(a) == SortedItems(b) <==> Elements(a) == Elements(b)
  {
    BlockHoldsLabels(a);
    BlockHoldsLabels(b);
    if SortedItems(a) == SortedItems(b) {
      assert Elements(a) == Elements(SortedItems(a)) == Elements(b);
    }
    if Elements(a) == Elements(b) {
      SortedItemsSorts(a);
      SortedItemsSorts(b);
      forall x
        ensures x in SortedItems(a) <==> x in SortedItems(b)
      {
        assert x in Elements(a) <==> x in Elements(b);
      }
      SortedListIsUnique(SortedItems(a), SortedItems(b));
      assert a == [] || a[0] in Elements(a);
      assert b == [] || b[0] in Elements(b);
    }
  }

  /** The restriction on names is needed: with an equals sign in a name, different label sets render alike. */
  lemma PlainIsQuoted()
    ensures Quoted("x") == "x" && Quoted("y") == "y"
  {
    ChainIsOnePass("x");
    ChainIsOnePass("y");
    assert "x"[1..] == "" && "y"[1..] == "";
  }

  lemma RenderOne(name: string, value: string, quoted: string)
    requires Quoted(value) == quoted
    ensures Render([(name, value)]) == "{" + (name + "=\"" + quoted + "\"") + "}"
  {
    hide Quoted;
    assert [(name, value)][1..] == [];
    assert SortedItems([(name, value)]) == [(name, value)];
  }

  lemma RenderTwo()
    ensures Render([("a", "x"), ("b", "y")]) == "{" + "a=\"x\",b=\"y\"" + "}"
  {
    PlainIsQuoted();
    hide Quoted;
    var a, tail := [("a", "x"), ("b", "y")], [("b", "y")];
    assert a[1..] == tail && tail[1..] == [];
    assert SortedItems(tail) == tail;
    assert SortedItems(a) == a;
    assert Joined(tail) == "b=\"y\"";
    assert Joined(a) == "a=\"x\"" + "," + "b=\"y\"";
  }

  lemma EqualsSignInNameCollides()
    ensures var a, b := [("a", "x"), ("b", "y")], [("a=\"x\",b", "y")];
            DistinctNames(a) && DistinctNames(b) && Elements(a) != Elements(b) && Render(a) == Render(b)
  {
    hide Render;
    var a, b: seq<Label> := [("a", "x"), ("b", "y")], [("a=\"x\",b", "y")];
    assert ("a", "x") in Elements(a) && ("a", "x") !in Elements(b);
    RenderTwo();
    PlainIsQuoted();
    RenderOne("a=\"x\",b", "y", "y");
  }
}
