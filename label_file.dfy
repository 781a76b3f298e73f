/** The plain-text format of the `_classlabels.txt` file: `savemodel` writes
    `'\n'.join(classlabels)`, `loadmodel` reads it back with `readlines()` and
    strips each line. */
module LabelFile {

  /** `'\n'.join(labels)` */
  function JoinLines(labels: seq<string>): string
    decreases |labels|
  {
    if |labels| == 0 then ""
    else if |labels| == 1 then labels[0]
    else labels[0] + "\n" + JoinLines(labels[1..])
  }

  /** A file opened for reading in text mode translates "\r\n" and a lone
      "\r" to "\n" (universal newlines). */
  function TranslateNewlines(s: string): string
    decreases |s|
  {
    if s == "" then ""
    else if s[0] == '\r' then "\n" + TranslateNewlines(if |s| > 1 && s[1] == '\n' then s[2..] else s[1..])
    else [s[0]] + TranslateNewlines(s[1..])
  }

  /** The position of the first "\n" of `s`, or `|s|` when there is none. */
  function LineEnd(s: string): (k: nat)
    ensures k <= |s| && (k < |s| ==> s[k] == '\n')
    ensures forall j :: 0 <= j < k ==> s[j] != '\n'
    decreases |s|
  {
    if s == "" || s[0] == '\n' then 0 else 1 + LineEnd(s[1..])
  }

  /** The lines of translated text, each keeping its "\n"; a last line without
      one is kept too, and empty text has no lines. */
  function SplitLines(s: string): seq<string>
    decreases |s|
  {
    if s == "" then []
    else
      var k := LineEnd(s);
      if k == |s| then [s] else [s[..k + 1]] + SplitLines(s[k + 1..])
  }

  /** `file.readlines()` on a file whose contents are `s`. */
  function ReadLines(s: string): seq<string> {
    SplitLines(TranslateNewlines(s))
  }

  /** `str.isspace()` of a single character. */
  predicate IsSpace(c: char) {
    ('\t' <= c <= '\r') || ('\U{1C}' <= c <= ' ') || c == '\U{85}' || c == '\U{A0}' ||
    c == '\U{1680}' || ('\U{2000}' <= c <= '\U{200A}') || c == '\U{2028}' || c == '\U{2029}' ||
    c == '\U{202F}' || c == '\U{205F}' || c == '\U{3000}'
  }

  function StripLeading(s: string): string
    decreases |s|
  {
    if s != "" && IsSpace(s[0]) then StripLeading(s[1..]) else s
  }

  function StripTrailing(s: string): string
    decreases |s|
  {
    if s != "" && IsSpace(s[|s| - 1]) then StripTrailing(s[..|s| - 1]) else s
  }

  /** `str.strip()` */
  function Strip(s: string): string {
    StripTrailing(StripLeading(s))
  }

  /** What `loadmodel` makes of the label file: `map(lambda s: s.strip(), readlines())`. */
  function ParseLabels(text: string): seq<string> {
    var lines := ReadLines(text);
    seq(|lines|, i requires 0 <= i < |lines| => Strip(lines[i]))
  }

  /** A label that survives the file unchanged: not empty, no line break in
      it, and no whitespace at either end. */
  predicate CleanLabel(name: string) {
    |name| > 0 && !IsSpace(name[0]) && !IsSpace(name[|name| - 1]) &&
    '\n' !in name && '\r' !in name
  }

  lemma {:induction false} TranslateWithoutCarriageReturn(s: string)
    requires '\r' !in s
    ensures TranslateNewlines(s) == s
    decreases |s|
  {
    if s != "" {
      TranslateWithoutCarriageReturn(s[1..]);
      assert s == [s[0]] + s[1..];
    }
  }

  lemma {:induction false} JoinWithoutCarriageReturn(labels: seq<string>)
    requires forall i :: 0 <= i < |labels| ==> '\r' !in labels[i]
    ensures '\r' !in JoinLines(labels)
    decreases |labels|
  {
    if |labels| > 1 {
      JoinWithoutCarriageReturn(labels[1..]);
    }
  }

  lemma LineEndOfJoin(a: string, b: string)
    requires '\n' !in a
    ensures LineEnd(a + "\n" + b) == |a|
  {
    var s := a + "\n" + b;
    assert s[|a|] == '\n';
    assert forall j :: 0 <= j < |a| ==> s[j] == a[j];
  }

  /** A line followed by the rest of the text splits off as the first line. */
  lemma SplitLinesCons(a: string, b: string)
    requires '\n' !in a
    ensures SplitLines(a + "\n" + b) == [a + "\n"] + SplitLines(b)
  {
    var s := a + "\n" + b;
    LineEndOfJoin(a, b);
    assert s[..|a| + 1] == a + "\n";
    assert s[|a| + 1..] == b;
  }

  /** Splitting the joined text gives each label back, all but the last still
      carrying its "\n". */
  lemma {:induction false} SplitJoin(labels: seq<string>)
    requires forall i :: 0 <= i < |labels| ==> CleanLabel(labels[i])
    ensures |SplitLines(JoinLines(labels))| == |labels|
    ensures forall i :: 0 <= i < |labels| ==>
              SplitLines(JoinLines(labels))[i] == labels[i] + (if i < |labels| - 1 then "\n" else "")
    decreases |labels|
  {
    if |labels| == 1 {
      assert LineEnd(labels[0]) == |labels[0]|;
      assert labels[0] + "" == labels[0];
    } else if |labels| > 1 {
      var a, rest := labels[0], labels[1..];
      SplitJoin(rest);
      assert JoinLines(labels) == a + "\n" + JoinLines(rest);
      SplitLinesCons(a, JoinLines(rest));
      var lines, tail := SplitLines(JoinLines(labels)), SplitLines(JoinLines(rest));
      assert lines == [a + "\n"] + tail;
      forall i | 0 <= i < |labels|
        ensures lines[i] == labels[i] + (if i < |labels| - 1 then "\n" else "")
      {
        if i > 0 {
          assert lines[i] == tail[i - 1] && labels[i] == rest[i - 1];
        }
      }
    }
  }

  lemma StripClean(name: string)
    requires CleanLabel(name)
    ensures Strip(name) == name
    ensures Strip(name + "\n") == name
  {
    var t := name + "\n";
    assert StripLeading(t) == t;
    assert t[..|t| - 1] == name;
  }

  /** Saving clean labels and loading them back returns the same list. */
  lemma {:induction false} LabelFileRoundTrip(labels: seq<string>)
    requires forall i :: 0 <= i < |labels| ==> CleanLabel(labels[i])
    ensures ParseLabels(JoinLines(labels)) == labels
  {
    var text := JoinLines(labels);
    JoinWithoutCarriageReturn(labels);
    TranslateWithoutCarriageReturn(text);
    SplitJoin(labels);
    var parsed := ParseLabels(text);
    forall i | 0 <= i < |labels| ensures parsed[i] == labels[i] {
      StripClean(labels[i]);
      if i == |labels| - 1 { assert labels[i] + "" == labels[i]; }
    }
  }

  /** Text without a line break is a single line. */
  lemma SplitSingleLine(s: string)
    requires s != "" && '\n' !in s
    ensures SplitLines(s) == [s]
  {
    assert s[..|s|] == s;
  }

  /** The condition is needed: an empty label at the end is lost ... */
  lemma TrailingEmptyLabelIsLost(name: string)
    requires CleanLabel(name)
    ensures ParseLabels(JoinLines([name, ""])) == [name]
  {
    var labels := [name, ""];
    var t := JoinLines(labels);
    assert labels[1..] == [""] && JoinLines([""]) == "";
    assert t == name + "\n" + JoinLines(labels[1..]);
    JoinWithoutCarriageReturn(labels);
    TranslateWithoutCarriageReturn(t);
    SplitLinesCons(name, "");
    assert SplitLines(t) == [name + "\n"];
    StripClean(name);
  }

  /** ... and the whitespace around a label is stripped. */
  lemma SurroundingSpaceIsStripped(name: string)
    requires CleanLabel(name)
    ensures ParseLabels(JoinLines([" " + name + " "])) == [name]
  {
    var t := " " + name + " ";
    assert JoinLines([t]) == t;
    assert '\r' !in t && '\n' !in t;
    TranslateWithoutCarriageReturn(t);
    SplitSingleLine(t);
    assert t[1..] == name + " ";
    assert StripLeading(t) == name + " ";
    var u := name + " ";
    assert u[..|u| - 1] == name && IsSpace(u[|u| - 1]);
    assert StripTrailing(u) == StripTrailing(name) == name;
  }
}
