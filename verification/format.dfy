/** The text the hierarchy printer writes for each emitted line: two
    spaces per level, the bone index in decimal, one space, the bone name
    and a newline. A parser for that text recovers every line. */
module Format {
  import opened Skeleton
  import opened NameTable
  import opened Hierarchy

  datatype Option<T> = None | Some(value: T)

  predicate IsDigit(ch: char) {
    '0' <= ch <= '9'
  }

  predicate AllDigits(s: string) {
    forall k :: 0 <= k < |s| ==> IsDigit(s[k])
  }

  function Digit(d: nat): (ch: char)
    requires d < 10
  {
    ('0' as int + d) as char
  }

  /** The decimal form of `n` as stream output writes an unsigned integer:
      at least one digit and no leading zero. */
  function DecimalOf(n: nat): (s: string)
    ensures |s| >= 1 && AllDigits(s)
    ensures s[0] == '0' ==> n == 0 && |s| == 1
  {
    if n < 10 then [Digit(n)] else DecimalOf(n / 10) + [Digit(n % 10)]
  }

  /** The value of a string of decimal digits. */
  function ValueOf(s: string): nat
    requires AllDigits(s)
  {
    if |s| == 0 then 0
    else ValueOf(s[..|s| - 1]) * 10 + (s[|s| - 1] as int - '0' as int)
  }

  /** Reading back a printed index gives the index. */
  lemma {:induction false} DecimalRoundTrip(n: nat)
    ensures ValueOf(DecimalOf(n)) == n
  {
    if n >= 10 {
      DecimalRoundTrip(n / 10);
      var s := DecimalOf(n);
      assert s[..|s| - 1] == DecimalOf(n / 10);
    }
  }

  function Spaces(n: nat): (s: string)
    ensures |s| == n && forall k :: 0 <= k < n ==> s[k] == ' '
  {
    seq(n, _ => ' ')
  }

  /** One printed line: two spaces per level, the bone index, a space, the
      name and a newline. Whatever the name holds, the line parses back. */
  function RenderLine(line: Line): (s: string)
    ensures ParseLine(s) == Some(line)
  {
    LineRoundTrip(line.level, line.boneId, line.name);
    Spaces(2 * line.level) + DecimalOf(line.boneId) + " " + line.name + "\n"
  }

  /** The whole printed text, line after line. */
  function Render(lines: seq<Line>): string {
    if |lines| == 0 then "" else RenderLine(lines[0]) + Render(lines[1..])
  }

  /** The number of leading space characters of `s`. */
  function LeadingSpaces(s: string): (n: nat)
    ensures n <= |s|
    ensures forall k :: 0 <= k < n ==> s[k] == ' '
    ensures n < |s| ==> s[n] != ' '
  {
    if |s| > 0 && s[0] == ' ' then 1 + LeadingSpaces(s[1..]) else 0
  }

  /** The number of leading decimal digits of `s`. */
  function LeadingDigits(s: string): (n: nat)
    ensures n <= |s|
    ensures AllDigits(s[..n])
    ensures n < |s| ==> !IsDigit(s[n])
  {
    if |s| > 0 && IsDigit(s[0]) then
      var rest := LeadingDigits(s[1..]);
      assert s[..1 + rest] == [s[0]] + s[1..][..rest];
      1 + rest
    else 0
  }

  /** Reads one printed line back: an even run of spaces, a run of digits,
      one space, the name, and a final newline. */
  function ParseLine(s: string): (r: Option<Line>)
    ensures r.Some? ==> |s| >= 1 && s[|s| - 1] == '\n'
  {
    var sp := LeadingSpaces(s);
    if sp % 2 != 0 then None else ParseIndexAndName(sp / 2, s[sp..])
  }

  /** The part of a line after its indentation. */
  function ParseIndexAndName(level: nat, rest: string): (r: Option<Line>)
    ensures r.Some? ==> |rest| >= 1 && rest[|rest| - 1] == '\n'
  {
    var nd := LeadingDigits(rest);
    if nd == 0 || nd == |rest| || rest[nd] != ' ' then None
    else ParseName(level, ValueOf(rest[..nd]), rest[nd + 1..])
  }

  /** The part of a line after its index and the separating space. */
  function ParseName(level: nat, id: nat, tail: string): (r: Option<Line>)
    ensures r.Some? ==> |tail| >= 1 && tail[|tail| - 1] == '\n'
  {
    if |tail| == 0 || tail[|tail| - 1] != '\n' then None
    else Some(Line(level, id, tail[..|tail| - 1]))
  }

  lemma LeadingSpacesOf(n: nat, t: string)
    requires |t| > 0 && t[0] != ' '
    ensures LeadingSpaces(Spaces(n) + t) == n
    decreases n
  {
    if n > 0 {
      assert (Spaces(n) + t)[1..] == Spaces(n - 1) + t;
      LeadingSpacesOf(n - 1, t);
    }
  }

  lemma LeadingDigitsOf(d: string, t: string)
    requires AllDigits(d)
    requires |t| > 0 && !IsDigit(t[0])
    ensures LeadingDigits(d + t) == |d|
    decreases |d|
  {
    if |d| > 0 {
      assert (d + t)[1..] == d[1..] + t;
      LeadingDigitsOf(d[1..], t);
    }
  }

  /** Everything after the leading spaces of a printed line. */
  lemma AfterIndent(level: nat, id: nat, name: string)
    ensures var s := Spaces(2 * level) + DecimalOf(id) + " " + name + "\n";
            && LeadingSpaces(s) == 2 * level
            && s[2 * level..] == DecimalOf(id) + (" " + name + "\n")
  {
    var digits := DecimalOf(id);
    var after := " " + name + "\n";
    assert Spaces(2 * level) + digits + " " + name + "\n" == Spaces(2 * level) + (digits + after);
    LeadingSpacesOf(2 * level, digits + after);
  }

  /** Everything after the index of a printed line. */
  lemma AfterIndex(digits: string, name: string)
    requires AllDigits(digits) && |digits| >= 1
    ensures var rest := digits + (" " + name + "\n");
            && LeadingDigits(rest) == |digits|
            && rest[..|digits|] == digits
            && rest[|digits|] == ' '
            && rest[|digits| + 1..] == name + "\n"
  {
    LeadingDigitsOf(digits, " " + name + "\n");
  }

  /** The last stage of parsing reads the name up to the final newline. */
  lemma NameStep(level: nat, id: nat, name: string)
    ensures ParseName(level, id, name + "\n") == Some(Line(level, id, name))
  {
    var tail := name + "\n";
    assert tail[..|tail| - 1] == name;
  }

  /** The middle stage of parsing reads the digits and the separating
      space. */
  lemma IndexStep(level: nat, digits: string, name: string)
    requires AllDigits(digits) && |digits| >= 1
    ensures ParseIndexAndName(level, digits + (" " + name + "\n"))
            == ParseName(level, ValueOf(digits), name + "\n")
  {
    AfterIndex(digits, name);
  }

  /** Parsing indentation, index, space, name and newline gives back the
      level, bone index and name, whatever characters the name holds. */
  lemma LineRoundTrip(level: nat, id: nat, name: string)
    ensures ParseLine(Spaces(2 * level) + DecimalOf(id) + " " + name + "\n") == Some(Line(level, id, name))
  {
    var s := Spaces(2 * level) + DecimalOf(id) + " " + name + "\n";
    var sp := 2 * level;
    var digits := DecimalOf(id);
    AfterIndent(level, id, name);
    Halves(level);
    IndexStep(level, digits, name);
    DecimalRoundTrip(id);
    NameStep(level, id, name);
    assert ParseLine(s) == ParseIndexAndName(sp / 2, s[sp..]);
  }

  lemma Halves(n: nat)
    ensures (2 * n) % 2 == 0 && (2 * n) / 2 == n
  {
  }

  /** The position of the first newline of `s`, or |s| if there is none. */
  function FirstNewline(s: string): (k: nat)
    ensures k <= |s|
    ensures forall j :: 0 <= j < k ==> s[j] != '\n'
    ensures k < |s| ==> s[k] == '\n'
  {
    if |s| == 0 || s[0] == '\n' then 0 else 1 + FirstNewline(s[1..])
  }

  /** Reads printed text back, one newline-terminated line at a time. */
  function ParseText(s: string): Option<seq<Line>>
    decreases |s|
  {
    if |s| == 0 then Some([])
    else
      var k := FirstNewline(s);
      if k == |s| then None
      else
        match ParseLine(s[..k + 1])
        case None => None
        case Some(line) =>
          match ParseText(s[k + 1..])
          case None => None
          case Some(lines) => Some([line] + lines)
  }

  /** A printed line holds its only newline at the end when the name has
      none. */
  lemma NewlineAtEnd(line: Line)
    requires '\n' !in line.name
    ensures var s := RenderLine(line);
            && |s| >= 1 && s[|s| - 1] == '\n'
            && forall j :: 0 <= j < |s| - 1 ==> s[j] != '\n'
  {
    var s := RenderLine(line);
    var digits := DecimalOf(line.boneId);
    var indent := Spaces(2 * line.level);
    assert s == indent + digits + " " + line.name + "\n";
    forall j | 0 <= j < |s| - 1 ensures s[j] != '\n' {
      if j < |indent| {
        assert s[j] == indent[j];
      } else if j < |indent| + |digits| {
        assert s[j] == digits[j - |indent|];
      } else if j == |indent| + |digits| {
        assert s[j] == ' ';
      } else {
        assert s[j] == line.name[j - |indent| - |digits| - 1];
      }
    }
  }

  lemma FirstNewlineOf(a: string, b: string)
    requires |a| >= 1 && a[|a| - 1] == '\n'
    requires forall j :: 0 <= j < |a| - 1 ==> a[j] != '\n'
    ensures FirstNewline(a + b) == |a| - 1
    decreases |a|
  {
    if |a| > 1 {
      assert (a + b)[1..] == a[1..] + b;
      FirstNewlineOf(a[1..], b);
    }
  }

  /** A line whose only newline is its last character, followed by more
      text, parses as that line followed by the lines of the rest. */
  lemma ParseCons(first: string, rest: string, line: Line, lines: seq<Line>)
    requires |first| >= 1 && first[|first| - 1] == '\n'
    requires forall j :: 0 <= j < |first| - 1 ==> first[j] != '\n'
    requires ParseLine(first) == Some(line) && ParseText(rest) == Some(lines)
    ensures ParseText(first + rest) == Some([line] + lines)
  {
    var s := first + rest;
    FirstNewlineOf(first, rest);
    assert s[..|first|] == first;
    assert s[|first|..] == rest;
  }

  /** When no bone name holds a newline, parsing the printed text gives
      back every emitted line, in order. */
  lemma {:induction false} TextRoundTrip(lines: seq<Line>)
    requires forall k :: 0 <= k < |lines| ==> '\n' !in lines[k].name
    ensures ParseText(Render(lines)) == Some(lines)
  {
    if |lines| > 0 {
      var first := RenderLine(lines[0]);
      NewlineAtEnd(lines[0]);
      TextRoundTrip(lines[1..]);
      ParseCons(first, Render(lines[1..]), lines[0], lines[1..]);
      assert lines == [lines[0]] + lines[1..];
    }
  }

  /** No name in the map contains a newline. */
  predicate NoNewlineNames(entries: seq<NameEntry>) {
    forall i :: 0 <= i < |entries| ==> '\n' !in entries[i].name
  }

  /** What the printer writes to standard output. When no name holds a
      newline, the text reads back as exactly the emitted lines, so the
      levels, indices and names of the lines are what a reader sees. */
  function PrintedText(bones: seq<Bone>, entries: seq<NameEntry>): (text: string)
    requires ValidParents(bones) && IdsInRange(entries, |bones|)
    ensures NoNewlineNames(entries) ==> ParseText(text) == Some(PrintBoneHierarchy(bones, entries))
  {
    PrintedLinesReadBack(bones, entries);
    Render(PrintBoneHierarchy(bones, entries))
  }

  /** When no name holds a newline, neither does any emitted line, and the
      rendered lines parse back. */
  lemma PrintedLinesReadBack(bones: seq<Bone>, entries: seq<NameEntry>)
    requires ValidParents(bones) && IdsInRange(entries, |bones|)
    ensures NoNewlineNames(entries) ==>
              ParseText(Render(PrintBoneHierarchy(bones, entries))) == Some(PrintBoneHierarchy(bones, entries))
  {
    if NoNewlineNames(entries) {
      var lines := PrintBoneHierarchy(bones, entries);
      var names := InvertNames(entries, |bones|);
      forall k | 0 <= k < |lines| ensures '\n' !in lines[k].name {
        var id := lines[k].boneId;
        if names[id] != "" {
          var i :| 0 <= i < |entries| && entries[i].boneId == id && entries[i].name == names[id];
        }
      }
      TextRoundTrip(lines);
    }
  }
}
