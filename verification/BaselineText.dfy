/**
  The baseline file: one line for each entry, written with two comment lines in front and
  parsed back by stripping, splitting off the kind and splitting at the last space.
 */
module BaselineText {
  import opened Common
  import opened LayoutKeys
  import LayoutRatchet

  // ---- characters ----

  predicate IsSpace(c: char) {
    var n := c as int;
    || 0x09 <= n <= 0x0D || 0x1C <= n <= 0x20 || n == 0x85 || n == 0xA0 || n == 0x1680
    || 0x2000 <= n <= 0x200A || n == 0x2028 || n == 0x2029 || n == 0x202F || n == 0x205F || n == 0x3000
  }

  /** What `splitlines` breaks at. */
  predicate IsBreak(c: char) {
    var n := c as int;
    0x0A <= n <= 0x0D || 0x1C <= n <= 0x1E || n == 0x85 || n == 0x2028 || n == 0x2029
  }

  predicate IsDigit(c: char) {
    '0' <= c <= '9'
  }

  predicate NoBreaks(s: string) {
    forall i :: 0 <= i < |s| ==> !IsBreak(s[i])
  }

  // ---- numbers ----

  function DigitChar(d: nat): char
    requires d < 10
  {
    ('0' as int + d) as char
  }

  function ShowNat(n: nat): (s: string)
    ensures s != ""
  {
    if n < 10 then [DigitChar(n)] else ShowNat(n / 10) + [DigitChar(n % 10)]
  }

  function ShowInt(n: int): string {
    if n < 0 then "-" + ShowNat(-n) else ShowNat(n)
  }

  /** The zeros of the other decimal digit systems of Unicode 15.0; nine more digits follow each. */
  const OTHER_ZEROS: seq<int> :=
    [0x660, 0x6F0, 0x7C0, 0x966, 0x9E6, 0xA66, 0xAE6, 0xB66, 0xBE6, 0xC66,
     0xCE6, 0xD66, 0xDE6, 0xE50, 0xED0, 0xF20, 0x1040, 0x1090, 0x17E0, 0x1810,
     0x1946, 0x19D0, 0x1A80, 0x1A90, 0x1B50, 0x1BB0, 0x1C40, 0x1C50, 0xA620, 0xA8D0,
     0xA900, 0xA9D0, 0xA9F0, 0xAA50, 0xABF0, 0xFF10, 0x104A0, 0x10D30, 0x11066, 0x110F0,
     0x11136, 0x111D0, 0x112F0, 0x11450, 0x114D0, 0x11650, 0x116C0, 0x11730, 0x118E0, 0x11950,
     0x11C50, 0x11D50, 0x11DA0, 0x11F50, 0x16A60, 0x16AC0, 0x16B50, 0x1D7CE, 0x1D7D8, 0x1D7E2,
     0x1D7EC, 0x1D7F6, 0x1E140, 0x1E2F0, 0x1E4F0, 0x1E950, 0x1FBF0]

  function ValueFrom(n: int, zeros: seq<int>): Option<nat> {
    if zeros == [] then None
    else if zeros[0] <= n < zeros[0] + 10 then Some(n - zeros[0])
    else ValueFrom(n, zeros[1..])
  }

  /** The value of a decimal digit in any script. */
  function DecimalValue(c: char): Option<nat> {
    if IsDigit(c) then Some(c as int - '0' as int) else ValueFrom(c as int, OTHER_ZEROS)
  }

  function ReadNat(s: string): Option<nat> {
    if s == "" || DecimalValue(s[|s| - 1]).None? then None
    else
      var d := DecimalValue(s[|s| - 1]).value;
      if |s| == 1 then Some(d)
      else
        var front := ReadNat(s[..|s| - 1]);
        if front.None? then None else Some(10 * front.value + d)
  }

  function ReadInt(s: string): Option<int> {
    if s != "" && s[0] == '-' then
      var n := ReadNat(s[1..]);
      if n.None? then None else Some(-(n.value as int))
    else
      var n := ReadNat(s);
      if n.None? then None else Some(n.value)
  }

  lemma {:induction false} NatReadBack(n: nat)
    ensures ReadNat(ShowNat(n)) == Some(n)
    ensures forall i :: 0 <= i < |ShowNat(n)| ==> IsDigit(ShowNat(n)[i])
  {
    hide ValueFrom;
    if n >= 10 {
      NatReadBack(n / 10);
      var s := ShowNat(n);
      assert s[..|s| - 1] == ShowNat(n / 10);
    }
  }

  /** A shown number starts and ends in visible characters and has no space in it. */
  predicate Plain(s: string) {
    s != "" && forall i :: 0 <= i < |s| ==> IsDigit(s[i]) || s[i] == '-'
  }

  lemma IntReadBack(n: int)
    ensures ReadInt(ShowInt(n)) == Some(n) && Plain(ShowInt(n))
  {
    hide ShowNat, ReadNat;
    var m := if n < 0 then -n else n;
    NatReadBack(m);
    var s := ShowNat(m);
    if n < 0 {
      assert ShowInt(n) == "-" + s && ShowInt(n)[1..] == s;
    } else {
      assert IsDigit(s[0]);
    }
  }

  // ---- string helpers of the parser ----

  function StripLeft(s: string): (r: string)
    ensures |r| <= |s|
    ensures r != "" ==> !IsSpace(r[0])
  {
    if s != "" && IsSpace(s[0]) then StripLeft(s[1..]) else s
  }

  function StripRight(s: string): (r: string)
    ensures r <= s
    ensures r != "" ==> !IsSpace(r[|r| - 1])
  {
    if s != "" && IsSpace(s[|s| - 1]) then StripRight(s[..|s| - 1]) else s
  }

  function Strip(s: string): string {
    StripRight(StripLeft(s))
  }

  function FirstSpace(s: string): (i: nat)
    ensures i <= |s| && (i < |s| ==> IsSpace(s[i]))
    ensures forall j :: 0 <= j < i ==> !IsSpace(s[j])
  {
    if s == "" || IsSpace(s[0]) then 0 else 1 + FirstSpace(s[1..])
  }

  /** Position of the last blank, or None. */
  function LastBlank(s: string): (r: Option<nat>)
    ensures r.Some? ==> r.value < |s| && s[r.value] == ' ' && forall j :: r.value < j < |s| ==> s[j] != ' '
    ensures r.None? ==> forall j :: 0 <= j < |s| ==> s[j] != ' '
  {
    if s == "" then None
    else if s[|s| - 1] == ' ' then Some(|s| - 1)
    else LastBlank(s[..|s| - 1])
  }

  function FirstBreak(s: string): (i: nat)
    ensures i <= |s| && (i < |s| ==> IsBreak(s[i]))
    ensures forall j :: 0 <= j < i ==> !IsBreak(s[j])
  {
    if s == "" || IsBreak(s[0]) then 0 else 1 + FirstBreak(s[1..])
  }

  /** A carriage return and a line feed are one break; a final break ends the last line. */
  function SplitLines(s: string): seq<string>
    decreases |s|
  {
    if s == "" then []
    else
      var i := FirstBreak(s);
      if i == |s| then [s]
      else if s[i] == '\r' && i + 1 < |s| && s[i + 1] == '\n' then [s[..i]] + SplitLines(s[i + 2..])
      else [s[..i]] + SplitLines(s[i + 1..])
  }

  // ---- one line ----

  function KindName(kind: Kind): string {
    if kind.Dir? then "dir" else "file"
  }

  function KindOf(name: string): Option<Kind> {
    if name == "dir" then Some(Dir) else if name == "file" then Some(File) else None
  }

  function FormatEntry(key: Key, n: int): string {
    KindName(key.kind) + " " + key.path + " " + ShowInt(n)
  }

  datatype Line = Skip | Entry(key: Key, n: int) | Malformed

  function ParseLine(raw: string): Line {
    var line := Strip(raw);
    if line == "" || line[0] == '#' then Skip
    else
      var i := FirstSpace(line);
      var rest := StripLeft(line[i..]);
      var kind := KindOf(line[..i]);
      if rest == "" || kind.None? then Malformed
      else
        var at := LastBlank(rest);
        if at.None? then Malformed
        else
          var n := ReadInt(rest[at.value + 1..]);
          if n.None? then Malformed else Entry(Key(kind.value, rest[..at.value]), n.value)
  }

  function LoadLines(lines: seq<string>, entries: Entries): Option<Entries>
    decreases |lines|
  {
    if lines == [] then Some(entries)
    else match ParseLine(lines[0])
      case Skip => LoadLines(lines[1..], entries)
      case Entry(key, n) => LoadLines(lines[1..], entries[key := n])
      case Malformed => None
  }

  /** The loop over lines; None is a malformed line, and a missing file is no entries. */
  method LoadBaseline(text: Option<string>) returns (r: Option<Entries>)
    ensures r == if text.None? then Some(map[]) else LoadLines(SplitLines(text.value), map[])
  {
    var entries: Entries := map[];
    if text.None? {
      return Some(entries);
    }
    var lines := SplitLines(text.value);
    assert lines[0..] == lines;
    for i := 0 to |lines|
      invariant LoadLines(lines, map[]) == LoadLines(lines[i..], entries)
    {
      assert lines[i..][1..] == lines[i + 1..];
      var line := ParseLine(lines[i]);
      if line.Malformed? {
        return None;
      }
      if line.Entry? {
        entries := entries[line.key := line.n];
      }
    }
    r := Some(entries);
  }

  // ---- writing ----

  /** Words with one blank between them. */
  function Spaced(words: seq<string>): string {
    if words == [] then ""
    else if |words| == 1 then words[0]
    else words[0] + " " + Spaced(words[1..])
  }

  const TITLE_WORDS := ["#", "layout", "baseline:", "current", "violations", "of", "the", "layout", "limits"]
  const FORMAT_WORDS :=
    ["#", "format:", "dir", "<path>", "<n>", "|", "file", "<path>", "<n>;", "maintained", "by", "check_layout.py"]

  function HeaderLines(): seq<string> {
    [Spaced(TITLE_WORDS), Spaced(FORMAT_WORDS)]
  }

  function Text(lines: seq<string>): string {
    if lines == [] then "" else lines[0] + "\n" + Text(lines[1..])
  }

  /** The lines for the given order of keys. */
  function EntryLines(order: seq<Key>, entries: Entries): seq<string>
    requires forall i :: 0 <= i < |order| ==> order[i] in entries
  {
    if order == [] then [] else [FormatEntry(order[0], entries[order[0]])] + EntryLines(order[1..], entries)
  }

  function WriteBaseline(order: seq<Key>, entries: Entries): string
    requires forall i :: 0 <= i < |order| ==> order[i] in entries
  {
    Text(HeaderLines() + EntryLines(order, entries))
  }

  /** The lines of the file for the given order of keys, built in a loop. */
  method RenderLines(order: seq<Key>, entries: Entries) returns (lines: seq<string>)
    requires forall i :: 0 <= i < |order| ==> order[i] in entries
    ensures Text(lines) == WriteBaseline(order, entries)
  {
    hide FormatEntry, Text, HeaderLines;
    lines := HeaderLines();
    ghost var all := lines + EntryLines(order, entries);
    assert order[0..] == order;
    for i := 0 to |order|
      invariant lines + EntryLines(order[i..], entries) == all
    {
      assert order[i..][1..] == order[i + 1..];
      lines := lines + [FormatEntry(order[i], entries[order[i]])];
    }
    assert lines + [] == lines;
  }

  /** Text that lists every entry once, in ascending order of the keys. */
  ghost predicate IsBaselineFile(text: string, entries: Entries) {
    exists order :: Ascending(order) && Elements(order) == entries.Keys && Written(text, order, entries)
  }

  ghost predicate Written(text: string, order: seq<Key>, entries: Entries) {
    (forall i :: 0 <= i < |order| ==> order[i] in entries) && text == WriteBaseline(order, entries)
  }

  method RenderBaseline(entries: Entries) returns (text: string)
    ensures IsBaselineFile(text, entries)
  {
    hide WriteBaseline, Text, Ascending;
    var order := SortedKeys(entries.Keys);
    assert forall i :: 0 <= i < |order| ==> order[i] in Elements(order);
    var lines := RenderLines(order, entries);
    text := Text(lines);
    assert Written(text, order, entries);
  }

  // ---- which paths survive ----

  predicate PathOk(path: string) {
    path != "" && !IsSpace(path[0]) && NoBreaks(path)
  }

  lemma StripLeftKeeps(s: string)
    requires s != "" && !IsSpace(s[0])
    ensures StripLeft(s) == s
  {
  }

  lemma StripKeeps(s: string)
    requires s != "" && !IsSpace(s[0]) && !IsSpace(s[|s| - 1])
    ensures Strip(s) == s
  {
  }

  lemma KindIsPlain(kind: Kind)
    ensures var name := KindName(kind);
            name != "" && (forall i :: 0 <= i < |name| ==> !IsSpace(name[i]) && !IsBreak(name[i]) && name[i] != '#')
    ensures KindOf(KindName(kind)) == Some(kind)
  {
  }

  lemma FirstSpaceAt(word: string, tail: string)
    requires forall i :: 0 <= i < |word| ==> !IsSpace(word[i])
    requires tail != "" && IsSpace(tail[0])
    ensures FirstSpace(word + tail) == |word|
  {
    hide FirstSpace;
    var s := word + tail;
    var i := FirstSpace(s);
    assert s[|word|] == tail[0];
    assert forall j :: 0 <= j < |word| ==> s[j] == word[j];
  }

  lemma {:induction false} LastBlankAt(path: string, number: string)
    requires forall i :: 0 <= i < |number| ==> number[i] != ' '
    ensures LastBlank(path + " " + number) == Some(|path|)
    decreases |number|
  {
    var s := path + " " + number;
    if number == "" {
      assert s == path + " ";
    } else {
      var front := number[..|number| - 1];
      LastBlankAt(path, front);
      assert s[..|s| - 1] == path + " " + front;
      assert s[|s| - 1] == number[|number| - 1];
    }
  }

  lemma EntryParses(key: Key, n: int)
    requires PathOk(key.path)
    ensures ParseLine(FormatEntry(key, n)) == Entry(key, n)
  {
    hide ShowInt, ReadInt, KindName, KindOf, LastBlank, FirstSpace, StripLeft, Strip;
    var kind, path, number := KindName(key.kind), key.path, ShowInt(n);
    KindIsPlain(key.kind);
    IntReadBack(n);
    var line := FormatEntry(key, n);
    var rest := path + " " + number;
    assert line == kind + (" " + rest);
    assert !IsSpace(line[0]) && line[0] != '#' by { assert line[0] == kind[0]; }
    assert !IsSpace(line[|line| - 1]) by { assert line[|line| - 1] == number[|number| - 1]; }
    StripKeeps(line);
    FirstSpaceAt(kind, " " + rest);
    assert line[..|kind|] == kind && line[|kind|..] == " " + rest;
    DropBlank(rest);
    LastBlankAt(path, number);
    assert rest[..|path|] == path && rest[|path| + 1..] == number;
  }

  lemma DropBlank(rest: string)
    requires rest != "" && !IsSpace(rest[0])
    ensures StripLeft(" " + rest) == rest
  {
    var s := " " + rest;
    assert s[1..] == rest;
  }

  lemma EntryHasNoBreaks(key: Key, n: int)
    requires NoBreaks(key.path)
    ensures NoBreaks(FormatEntry(key, n))
  {
    hide ShowInt, KindName;
    KindIsPlain(key.kind);
    IntReadBack(n);
  }

  lemma FirstBreakAt(line: string, tail: string)
    requires NoBreaks(line)
    ensures FirstBreak(line + "\n" + tail) == |line|
  {
    hide FirstBreak;
    var s := line + "\n" + tail;
    var i := FirstBreak(s);
    assert s[|line|] == '\n' && IsBreak('\n');
    assert forall j :: 0 <= j < |line| ==> s[j] == line[j];
  }

  lemma {:induction false} TextSplits(lines: seq<string>)
    requires forall i :: 0 <= i < |lines| ==> NoBreaks(lines[i])
    ensures SplitLines(Text(lines)) == lines
  {
    hide FirstBreak;
    if lines != [] {
      var tail := Text(lines[1..]);
      var s := lines[0] + "\n" + tail;
      FirstBreakAt(lines[0], tail);
      TextSplits(lines[1..]);
      assert s[..|lines[0]|] == lines[0] && s[|lines[0]| + 1..] == tail;
      assert [lines[0]] + lines[1..] == lines;
    }
  }

  lemma {:induction false} EntryLinesClean(order: seq<Key>, entries: Entries)
    requires forall i :: 0 <= i < |order| ==> order[i] in entries && PathOk(order[i].path)
    ensures forall i :: 0 <= i < |EntryLines(order, entries)| ==> NoBreaks(EntryLines(order, entries)[i])
  {
    hide NoBreaks, FormatEntry;
    if order != [] {
      PathOkNoBreaks(order[0].path);
      EntryHasNoBreaks(order[0], entries[order[0]]);
      EntryLinesClean(order[1..], entries);
    }
  }

  lemma PathOkNoBreaks(path: string)
    requires PathOk(path)
    ensures NoBreaks(path)
  {
  }

  lemma MapCons(order: seq<Key>, entries: Entries, before: Entries)
    requires order != [] && forall i :: 0 <= i < |order| ==> order[i] in entries
    ensures before[order[0] := entries[order[0]]] + (map key | key in order[1..] :: entries[key])
         == before + map key | key in order :: entries[key]
  {
    assert forall key :: key in order <==> key == order[0] || key in order[1..];
  }

  lemma {:induction false} EntryLinesLoad(order: seq<Key>, entries: Entries, before: Entries)
    requires forall i :: 0 <= i < |order| ==> order[i] in entries && PathOk(order[i].path)
    ensures LoadLines(EntryLines(order, entries), before) == Some(before + map key | key in order :: entries[key])
    decreases |order|
  {
    hide ParseLine, FormatEntry, PathOk;
    var all := map key | key in order :: entries[key];
    if order == [] {
      assert before + all == before;
    } else {
      var n := entries[order[0]];
      EntryParses(order[0], n);
      var lines := EntryLines(order, entries);
      assert lines[1..] == EntryLines(order[1..], entries);
      EntryLinesLoad(order[1..], entries, before[order[0] := n]);
      MapCons(order, entries, before);
    }
  }

  predicate Comment(s: string) {
    s != "" && s[0] == '#' && NoBreaks(s)
  }

  lemma CommentSkipped(s: string)
    requires Comment(s)
    ensures NoBreaks(s) && ParseLine(s).Skip?
  {
    StripLeftKeeps(s);
    var line := StripRight(s);
    assert line != "" ==> line[0] == s[0];
  }

  lemma {:induction false} SpacedHasNoBreaks(words: seq<string>)
    requires forall i :: 0 <= i < |words| ==> NoBreaks(words[i])
    ensures NoBreaks(Spaced(words))
    decreases |words|
  {
    if |words| > 1 {
      SpacedHasNoBreaks(words[1..]);
    }
  }

  lemma SpacedIsComment(words: seq<string>)
    requires |words| > 1 && words[0] == "#" && forall i :: 0 <= i < |words| ==> NoBreaks(words[i])
    ensures Comment(Spaced(words))
  {
    SpacedHasNoBreaks(words);
  }

  lemma HeadersAreComments()
    ensures |HeaderLines()| == 2 && Comment(HeaderLines()[0]) && Comment(HeaderLines()[1])
  {
    hide Spaced, Comment;
    assert forall i :: 0 <= i < |TITLE_WORDS| ==> NoBreaks(TITLE_WORDS[i]);
    SpacedIsComment(TITLE_WORDS);
    assert forall i :: 0 <= i < |FORMAT_WORDS| ==> NoBreaks(FORMAT_WORDS[i]);
    SpacedIsComment(FORMAT_WORDS);
  }

  lemma HeaderSkipped()
    ensures var header := HeaderLines();
            |header| == 2 && forall i :: 0 <= i < 2 ==> NoBreaks(header[i]) && ParseLine(header[i]).Skip?
  {
    hide *;
    HeadersAreComments();
    CommentSkipped(HeaderLines()[0]);
    CommentSkipped(HeaderLines()[1]);
  }

  /** Writing and loading gives back every map whose paths are non-empty, start visibly and have no line break. */
  lemma RoundTrip(order: seq<Key>, entries: Entries)
    requires forall key :: key in entries <==> key in order
    requires forall key :: key in entries ==> PathOk(key.path)
    ensures LoadLines(SplitLines(WriteBaseline(order, entries)), map[]) == Some(entries)
  {
    hide PathOk, ParseLine, SplitLines, Text, NoBreaks, HeaderLines;
    HeaderSkipped();
    EntryLinesClean(order, entries);
    var header, body := HeaderLines(), EntryLines(order, entries);
    var lines := header + body;
    TextSplits(lines);
    assert lines[1..][1..] == body && lines[1..][0] == header[1] && lines[0] == header[0];
    EntryLinesLoad(order, entries, map[]);
    assert map[] + (map key | key in order :: entries[key]) == entries;
  }

  /** Every loaded path is of that form, whatever the file says. */
  lemma ParsedPathOk(raw: string)
    requires NoBreaks(raw) && ParseLine(raw).Entry?
    ensures PathOk(ParseLine(raw).key.path)
  {
    hide ReadInt, KindOf, FirstSpace, LastBlank;
    StripsOnly(raw);
    var line := Strip(raw);
    var i := FirstSpace(line);
    var rest := StripLeft(line[i..]);
    StripLeftPart(line[i..]);
    var at := LastBlank(rest).value;
    assert rest[at] == ' ';
    assert IsSpace(' ');
    assert at != 0;
    assert NoBreaks(rest[..at]);
  }

  lemma {:induction false} StripLeftPart(s: string)
    requires NoBreaks(s)
    ensures NoBreaks(StripLeft(s))
  {
    if s != "" && IsSpace(s[0]) {
      StripLeftPart(s[1..]);
    }
  }

  lemma StripsOnly(s: string)
    requires NoBreaks(s)
    ensures NoBreaks(Strip(s))
  {
    StripLeftPart(s);
    var left := StripLeft(s);
    assert StripRight(left) <= left;
  }

  lemma {:induction false} LinesHaveNoBreaks(s: string)
    ensures forall i :: 0 <= i < |SplitLines(s)| ==> NoBreaks(SplitLines(s)[i])
    decreases |s|
  {
    if s != "" {
      var i := FirstBreak(s);
      if i < |s| {
        if s[i] == '\r' && i + 1 < |s| && s[i + 1] == '\n' {
          LinesHaveNoBreaks(s[i + 2..]);
        } else {
          LinesHaveNoBreaks(s[i + 1..]);
        }
      }
    }
  }

  lemma {:induction false} LoadedPathsOk(lines: seq<string>, before: Entries)
    requires forall i :: 0 <= i < |lines| ==> NoBreaks(lines[i])
    requires forall key :: key in before ==> PathOk(key.path)
    requires LoadLines(lines, before).Some?
    ensures forall key :: key in LoadLines(lines, before).value ==> PathOk(key.path)
    decreases |lines|
  {
    hide ParseLine, PathOk, NoBreaks;
    if lines != [] {
      var line := ParseLine(lines[0]);
      assert NoBreaks(lines[0]);
      if line.Entry? {
        ParsedPathOk(lines[0]);
        LoadedPathsOk(lines[1..], before[line.key := line.n]);
      } else {
        LoadedPathsOk(lines[1..], before);
      }
    }
  }

  /** The round trip works for a map exactly when all its paths are of that form. */
  lemma RoundTripExactly(order: seq<Key>, entries: Entries)
    requires forall key :: key in entries <==> key in order
    ensures LoadLines(SplitLines(WriteBaseline(order, entries)), map[]) == Some(entries)
            <==> forall key :: key in entries ==> PathOk(key.path)
  {
    hide PathOk, NoBreaks, WriteBaseline, LoadLines, SplitLines;
    var text := WriteBaseline(order, entries);
    if LoadLines(SplitLines(text), map[]) == Some(entries) {
      LinesHaveNoBreaks(text);
      LoadedPathsOk(SplitLines(text), map[]);
    }
    if forall key :: key in entries ==> PathOk(key.path) {
      RoundTrip(order, entries);
    }
  }

  // ---- the tools around the file ----

  ghost predicate LoadsAs(text: string, entries: Entries) {
    LoadLines(SplitLines(text), map[]) == Some(entries)
  }

  /** The file written for a map loads as that map exactly when its paths are of that form. */
  lemma FileRoundTrip(text: string, entries: Entries)
    requires IsBaselineFile(text, entries)
    ensures LoadsAs(text, entries) <==> forall key :: key in entries ==> PathOk(key.path)
  {
    hide PathOk, WriteBaseline, LoadLines, SplitLines, Ascending;
    var order :| Ascending(order) && Elements(order) == entries.Keys && Written(text, order, entries);
    forall key ensures key in entries <==> key in order {
      NotElement(key, order);
    }
    RoundTripExactly(order, entries);
  }

  /** Whatever baseline was loaded and whatever was measured, the updated baseline survives its file. */
  lemma UpdateSurvivesTheFile(old_: string, baseline: Entries, measured: Entries, text: string)
    requires LoadsAs(old_, baseline)
    requires IsBaselineFile(text, LayoutRatchet.Tightened(measured, baseline))
    ensures LoadsAs(text, LayoutRatchet.Tightened(measured, baseline))
  {
    hide PathOk, LoadLines, SplitLines, IsBaselineFile, NoBreaks;
    LinesHaveNoBreaks(old_);
    LoadedPathsOk(SplitLines(old_), map[]);
    FileRoundTrip(text, LayoutRatchet.Tightened(measured, baseline));
  }
}
