/** The source formatter (formatter.py): end-of-line names, the line cleaner
    (trailing whitespace stripped, tabs expanded to four-column stops) and the
    joining of cleaned lines with a terminator. Text is a sequence of
    characters; file reading and writing are left to the caller. */
module Formatter {
  import opened TownyObjects

  /** The end-of-line conventions, by name. */
  datatype EOL = CRLF | LF
  {
    function Name(): string
    {
      match this
      case CRLF => "CRLF"
      case LF => "LF"
    }

    function Value(): string
    {
      match this
      case CRLF => "\r\n"
      case LF => "\n"
    }
  }

  /** EOL.from_name: the member with that name; any other name is a KeyError. */
  function FromName(name: string): (r: Option<EOL>)
    ensures r.Some? <==> name == "CRLF" || name == "LF"
    ensures r.Some? ==> r.value.Name() == name
  {
    if name == "CRLF" then Some(CRLF)
    else if name == "LF" then Some(LF)
    else None
  }

  /** EOL.from_name_to_value: the characters of the named end of line. */
  function FromNameToValue(name: string): (r: Option<string>)
    ensures name == "CRLF" ==> r == Some("\r\n")
    ensures name == "LF" ==> r == Some("\n")
    ensures name != "CRLF" && name != "LF" ==> r.None?
  {
    match FromName(name)
    case Some(e) => Some(e.Value())
    case None => None
  }

  /** Names and members are in one-to-one correspondence. */
  lemma NameRoundTrip(e: EOL)
    ensures FromName(e.Name()) == Some(e)
    ensures FromNameToValue(e.Name()) == Some(e.Value())
  {
  }

  const TabWidth: nat := 4
  const Tab: char := '\t'

  /** The characters Python's `\s` matches in a str pattern (str.isspace). */
  predicate IsSpace(c: char)
  {
    || c == ' ' || c == '\t' || c == '\n' || c == '\r' || c == '\U{000B}' || c == '\U{000C}'
    || ('\U{001C}' <= c <= '\U{001F}') || c == '\U{0085}' || c == '\U{00A0}' || c == '\U{1680}'
    || ('\U{2000}' <= c <= '\U{200A}') || c == '\U{2028}' || c == '\U{2029}'
    || c == '\U{202F}' || c == '\U{205F}' || c == '\U{3000}'
  }

  /** The substitution of `\s+$` by nothing: the maximal run of trailing
      whitespace is removed. */
  function StripTrailing(s: string): (r: string)
    ensures |r| <= |s| && r == s[..|r|]
    ensures forall i :: |r| <= i < |s| ==> IsSpace(s[i])
    ensures r == [] || !IsSpace(r[|r| - 1])
  {
    if s == [] || !IsSpace(s[|s| - 1]) then s
    else StripTrailing(s[..|s| - 1])
  }

  function Spaces(n: nat): (r: string)
    ensures |r| == n && forall i :: 0 <= i < n ==> r[i] == ' '
  {
    seq(n, _ => ' ')
  }

  /** What one character becomes at output column col: a tab becomes the
      spaces up to the next multiple of TabWidth, any other character is
      copied. */
  function Piece(c: char, col: nat): (r: string)
    ensures c != Tab ==> r == [c]
    ensures c == Tab ==> 1 <= |r| <= TabWidth && (col + |r|) % TabWidth == 0
    ensures c == Tab ==> forall i :: 0 <= i < |r| ==> r[i] == ' '
  {
    if c == Tab then Spaces(TabWidth - col % TabWidth) else [c]
  }

  /** Tab expansion of the first k characters of s: each character becomes
      its piece at the column reached by the expansion of those before it. */
  function ExpandTo(s: string, k: nat): string
    requires k <= |s|
  {
    if k == 0 then []
    else
      var front := ExpandTo(s, k - 1);
      front + Piece(s[k - 1], |front|)
  }

  /** Tab expansion of a whole line. */
  function Expand(s: string): string
  {
    ExpandTo(s, |s|)
  }

  /** ''.join */
  function Concat(parts: seq<string>): string
  {
    if parts == [] then [] else Concat(parts[..|parts| - 1]) + parts[|parts| - 1]
  }

  /** clean_line, as a value: strip, then expand tabs when asked. */
  function CleanedLine(original: string, replaceTabs: bool): string
  {
    var line := StripTrailing(original);
    if replaceTabs then Expand(line) else line
  }

  // ---------------------------------------------------------------------
  // Facts about Expand.

  /** No tab among the characters from lo up to hi. */
  predicate NoTabBetween(s: string, lo: nat, hi: nat)
    requires lo <= hi <= |s|
  {
    forall j :: lo <= j < hi ==> s[j] != Tab
  }

  lemma NoTabExtend(s: string, lo: nat, hi: nat)
    requires lo <= hi < |s| && NoTabBetween(s, lo, hi) && s[hi] != Tab
    ensures NoTabBetween(s, lo, hi + 1)
  {
  }

  /** Characters between tabs are copied. */
  lemma {:induction false} ExpandCopies(s: string, lo: nat, hi: nat)
    requires lo <= hi <= |s| && NoTabBetween(s, lo, hi)
    ensures ExpandTo(s, hi) == ExpandTo(s, lo) + s[lo..hi]
    decreases hi - lo
  {
    if hi == lo {
      assert s[lo..hi] == [];
    } else {
      ExpandCopies(s, lo, hi - 1);
      assert s[lo..hi] == s[lo..hi - 1] + [s[hi - 1]];
    }
  }

  /** A line without tabs is left as it is. */
  lemma ExpandNoTab(s: string)
    requires Tab !in s
    ensures Expand(s) == s
  {
    ExpandCopies(s, 0, |s|);
    assert s[0..|s|] == s;
  }

  lemma {:induction false} NoTabsUpTo(s: string, k: nat)
    requires k <= |s|
    ensures forall i :: 0 <= i < |ExpandTo(s, k)| ==> ExpandTo(s, k)[i] != Tab
    decreases k
  {
    if k > 0 {
      NoTabsUpTo(s, k - 1);
    }
  }

  /** No tab survives expansion. */
  lemma NoTabsAfterExpand(s: string)
    ensures forall i :: 0 <= i < |Expand(s)| ==> Expand(s)[i] != Tab
  {
    NoTabsUpTo(s, |s|);
  }

  /** A tab becomes between 1 and TabWidth spaces and brings the output
      column to a multiple of TabWidth; any other character is copied. */
  lemma TabStop(s: string, k: nat)
    requires k < |s|
    ensures var before := |ExpandTo(s, k)|;
            var after := |ExpandTo(s, k + 1)|;
            if s[k] == Tab then 1 <= after - before <= TabWidth && after % TabWidth == 0
            else after == before + 1 && ExpandTo(s, k + 1)[before] == s[k]
  {
  }

  /** Expanding more characters only extends the output. */
  lemma {:induction false} ExpandPrefix(s: string, k: nat, j: nat)
    requires k <= j <= |s|
    ensures ExpandTo(s, k) <= ExpandTo(s, j)
    decreases j - k
  {
    if k < j {
      ExpandPrefix(s, k, j - 1);
    }
  }

  /** Each character other than a tab appears in the output at the length of
      the expansion of what precedes it, so the other characters keep their
      order. */
  lemma CharPreserved(s: string, k: nat)
    requires k < |s| && s[k] != Tab
    ensures |ExpandTo(s, k)| < |Expand(s)|
    ensures Expand(s)[|ExpandTo(s, k)|] == s[k]
  {
    ExpandPrefix(s, k + 1, |s|);
  }

  lemma {:induction false} LengthUpTo(s: string, k: nat)
    requires k <= |s|
    ensures |ExpandTo(s, k)| >= k
    decreases k
  {
    if k > 0 {
      LengthUpTo(s, k - 1);
    }
  }

  /** The output is never shorter than the input. */
  lemma ExpandLength(s: string)
    ensures |Expand(s)| >= |s|
  {
    LengthUpTo(s, |s|);
  }

  /** A cleaned line never ends in whitespace: the strip runs before the
      expansion, and the last character it leaves is neither whitespace nor a
      tab. */
  lemma CleanedLineEnd(original: string, replaceTabs: bool)
    ensures var r := CleanedLine(original, replaceTabs); r == [] || !IsSpace(r[|r| - 1])
  {
  }

  /** Without tab replacement the cleaner only strips, and with it a line
      without tabs is only stripped too. */
  lemma CleanedLineWithoutTabs(original: string, replaceTabs: bool)
    requires Tab !in original
    ensures CleanedLine(original, replaceTabs) == StripTrailing(original)
  {
    var line := StripTrailing(original);
    assert Tab !in line by {
      assert original == line + original[|line|..];
    }
    ExpandNoTab(line);
  }

  // ---------------------------------------------------------------------
  // The cleaner.

  lemma ConcatAppend(parts: seq<string>, a: string, b: string)
    ensures Concat(parts + [a, b]) == Concat(parts) + a + b
  {
    assert (parts + [a, b])[..|parts| + 1] == parts + [a];
    assert (parts + [a])[..|parts|] == parts;
  }

  /** Cutting at the tab at index i, the previous cut lastStop being on a tab
      stop: the expansion through the tab is the expansion up to the cut, the
      segment itself, and the spaces the segment's length modulo TabWidth
      calls for; it ends on a tab stop. */
  lemma ExpandThroughTab(s: string, lastStop: nat, i: nat)
    requires lastStop <= i < |s| && s[i] == Tab && NoTabBetween(s, lastStop, i)
    requires |ExpandTo(s, lastStop)| % TabWidth == 0
    ensures ExpandTo(s, i + 1)
         == ExpandTo(s, lastStop) + s[lastStop..i] + Spaces(TabWidth - (i - lastStop) % TabWidth)
    ensures |ExpandTo(s, i + 1)| % TabWidth == 0
  {
    var pad := Spaces(TabWidth - (i - lastStop) % TabWidth);
    ExpandCopies(s, lastStop, i);
    assert |ExpandTo(s, i)| == |ExpandTo(s, lastStop)| + (i - lastStop);
    TabPiece(|ExpandTo(s, lastStop)|, i - lastStop);
    Assemble(ExpandTo(s, i + 1), ExpandTo(s, i), ExpandTo(s, lastStop), s[lastStop..i],
             Piece(Tab, |ExpandTo(s, i)|), pad);
  }

  lemma Assemble(whole: string, front: string, head: string, segment: string, piece: string, pad: string)
    requires whole == front + piece && front == head + segment && piece == pad
    ensures whole == head + segment + pad
  {
  }

  /** A tab k columns past a tab stop pads by what k's remainder leaves. */
  lemma TabPiece(n: nat, k: nat)
    requires n % TabWidth == 0
    ensures Piece(Tab, n + k) == Spaces(TabWidth - k % TabWidth)
  {
    AlignedShift(n, k);
    assert TabWidth - (n + k) % TabWidth == TabWidth - k % TabWidth;
  }

  lemma AlignedShift(n: nat, k: nat)
    requires n % TabWidth == 0
    ensures (n + k) % TabWidth == k % TabWidth
  {
    assert n == TabWidth * (n / TabWidth);
  }

  /** One cut of clean_line at the tab at index i: the parts so far, the
      segment since the last cut and its padding expand the line through the
      tab. */
  lemma CutAtTab(line: string, lastStop: nat, i: nat, parts: seq<string>)
    requires lastStop <= i < |line| && line[i] == Tab && NoTabBetween(line, lastStop, i)
    requires Concat(parts) == ExpandTo(line, lastStop) && |Concat(parts)| % TabWidth == 0
    ensures Concat(parts + [line[lastStop..i], Spaces(TabWidth - (i - lastStop) % TabWidth)])
         == ExpandTo(line, i + 1)
    ensures |ExpandTo(line, i + 1)| % TabWidth == 0
  {
    var segment := line[lastStop..i];
    var pad := Spaces(TabWidth - (i - lastStop) % TabWidth);
    ExpandThroughTab(line, lastStop, i);
    ConcatAppend(parts, segment, pad);
  }

  /** The last cut of clean_line: the rest of the line is copied. */
  lemma CutRest(line: string, lastStop: nat, parts: seq<string>)
    requires lastStop <= |line| && NoTabBetween(line, lastStop, |line|)
    requires Concat(parts) == ExpandTo(line, lastStop)
    ensures Concat(parts + [line[lastStop..]]) == Expand(line)
  {
    ExpandCopies(line, lastStop, |line|);
    assert (parts + [line[lastStop..]])[..|parts|] == parts;
  }

  /** clean_line: strip the trailing whitespace, then expand the tabs when
      asked. */
  method CleanLine(original: string, replaceTabs: bool) returns (cleaned: string)
    ensures cleaned == CleanedLine(original, replaceTabs)
  {
    var line := StripTrailing(original);
    if !replaceTabs {
      return line;
    }
    cleaned := ExpandTabs(line);
  }

  /** The tab loop of clean_line: cut the line at each tab, replace the tab by
      TabWidth minus the segment length modulo TabWidth spaces, and join the
      pieces. */
  method ExpandTabs(line: string) returns (expanded: string)
    ensures expanded == Expand(line)
  {
    var lastStop := 0;
    var parts: seq<string> := [];
    var i := 0;
    while i < |line|
      invariant 0 <= lastStop <= i <= |line|
      invariant Concat(parts) == ExpandTo(line, lastStop)
      invariant |Concat(parts)| % TabWidth == 0
      invariant NoTabBetween(line, lastStop, i)
    {
      if line[i] == Tab {
        var width := TabWidth - (i - lastStop) % TabWidth;
        CutAtTab(line, lastStop, i, parts);
        parts := parts + [line[lastStop..i], Spaces(width)];
        lastStop := i + 1;
        assert NoTabBetween(line, lastStop, i + 1);
      } else {
        NoTabExtend(line, lastStop, i);
      }
      i := i + 1;
    }
    CutRest(line, lastStop, parts);
    parts := parts + [line[lastStop..]];
    expanded := Concat(parts);
  }

  /** sep.join(parts). */
  function JoinWith(parts: seq<string>, sep: string): string
  {
    if parts == [] then []
    else if |parts| == 1 then parts[0]
    else JoinWith(parts[..|parts| - 1], sep) + sep + parts[|parts| - 1]
  }

  /** text[slice(-k)]: slice(-k) is a stop bound, so this is the text without
      its last k characters (empty when k is 0, since -0 is 0). */
  function DropLast(text: string, k: nat): (r: string)
    ensures k == 0 ==> r == []
    ensures k > 0 ==> r == text[..if |text| < k then 0 else |text| - k]
  {
    if k == 0 then [] else text[..if |text| < k then 0 else |text| - k]
  }

  function CleanedLines(lines: seq<string>, replaceTabs: bool): (r: seq<string>)
    ensures |r| == |lines|
    ensures forall i :: 0 <= i < |lines| ==> r[i] == CleanedLine(lines[i], replaceTabs)
  {
    if lines == [] then []
    else CleanedLines(lines[..|lines| - 1], replaceTabs) + [CleanedLine(lines[|lines| - 1], replaceTabs)]
  }

  /** The text clean writes: the cleaned lines joined by eol, followed by eol
      unless the text without its last |eol| characters equals eol. */
  function CleanedText(lines: seq<string>, eol: string, keepTabs: bool): string
  {
    var text := JoinWith(CleanedLines(lines, keepTabs), eol);
    if DropLast(text, |eol|) != eol then text + eol else text
  }

  /** clean, on the lines read from a file: keep_tabs is passed as
      clean_line's replace_tabs argument. */
  method Clean(lines: seq<string>, eol: string, keepTabs: bool) returns (text: string)
    ensures text == CleanedText(lines, eol, keepTabs)
  {
    text := [];
    var i := 0;
    while i < |lines|
      invariant 0 <= i <= |lines|
      invariant text == JoinWith(CleanedLines(lines[..i], keepTabs), eol)
    {
      assert lines[..i + 1][..i] == lines[..i];
      var cleaned := CleanLine(lines[i], keepTabs);
      ghost var prefix := CleanedLines(lines[..i], keepTabs);
      assert CleanedLines(lines[..i + 1], keepTabs) == prefix + [cleaned];
      assert (prefix + [cleaned])[..|prefix|] == prefix;
      if i == 0 {
        text := cleaned;
      } else {
        text := text + eol + cleaned;
      }
      i := i + 1;
    }
    assert lines[..|lines|] == lines;
    if DropLast(text, |eol|) != eol {
      text := text + eol;
    }
  }

  /** The terminator is skipped exactly when eol is empty, or when the joined
      text is twice as long as eol and starts with it: the test compares a
      prefix of the text, not its end. */
  lemma TerminatorSkippedIff(lines: seq<string>, eol: string, keepTabs: bool)
    ensures var text := JoinWith(CleanedLines(lines, keepTabs), eol);
            CleanedText(lines, eol, keepTabs) == text
            <==> eol == [] || (|text| == 2 * |eol| && text[..|eol|] == eol)
  {
    var text := JoinWith(CleanedLines(lines, keepTabs), eol);
    if eol != [] && |text| < |eol| {
      assert |DropLast(text, |eol|)| == 0;
    }
    if CleanedText(lines, eol, keepTabs) == text && eol != [] {
      assert |text + eol| != |text|;
    }
  }

  /** With a line-feed terminator, a file whose lines are an empty line and
      "x" is written as "\nx": no terminator is added although the text does
      not end with one. */
  lemma PrefixTestExample()
    ensures CleanedText(["\n", "x"], "\n", false) == "\nx"
  {
    assert StripTrailing("\n") == [];
    assert StripTrailing("x") == "x";
    assert CleanedLines(["\n", "x"], false) == ["", "x"];
    assert JoinWith(["", "x"], "\n") == "\nx";
  }

  /** Cleaning the lines "a\t" and "\tb" with tab replacement and CRLF gives
      "a\r\n    b\r\n": the trailing tab is stripped, the leading one expanded. */
  lemma CleanExample()
    ensures CleanedText(["a\t", "\tb"], "\r\n", true) == "a\r\n    b\r\n"
  {
    assert StripTrailing("a\t") == "a";
    assert StripTrailing("\tb") == "\tb";
    assert ExpandTo("a", 1) == ExpandTo("a", 0) + "a";
    assert ExpandTo("\tb", 1) == "    ";
    assert ExpandTo("\tb", 2) == "    " + "b";
    assert CleanedLine("a\t", true) == "a";
    assert CleanedLine("\tb", true) == "    b";
    assert CleanedLines(["a\t", "\tb"], true) == ["a", "    b"];
    assert JoinWith(["a", "    b"], "\r\n") == "a\r\n    b";
  }
}
