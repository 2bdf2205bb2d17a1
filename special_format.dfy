/** The rewriting of "special format" uploads — whole records in one cell,
    fields separated by spaces or another separator — into comma- or
    tab-separated text before pandas reads it. */
module SpecialFormat {
  import opened Wrappers
  import opened PyText
  import Sorting

  /** `",".join(line.strip().split())`: one comma between the fields. */
  function CsvLine(line: string): (r: string)
    ensures NoSpace(r)
  {
    assert NoSpace(",") by { assert !IsSpace(','); }
    JoinNoSpace(",", SplitWhitespace(Strip(line)));
    Join(",", SplitWhitespace(Strip(line)))
  }

  /** A rewritten line has no whitespace, and when the line had no comma
      splitting it on commas gives back exactly its whitespace-separated
      fields. */
  lemma CsvLineFields(line: string)
    requires Strip(line) != [] && ',' !in line
    ensures NoSpace(CsvLine(line))
    ensures SplitOn(CsvLine(line), ',') == SplitWhitespace(Strip(line))
  {
    var s := Strip(line);
    var ws := SplitWhitespace(s);
    assert !IsSpace(',');
    assert ws != [] by {
      SplitWhitespaceEmpty(s);
      assert !IsSpace(s[0]);
    }
    StripAvoids(line, ',');
    SplitWhitespaceAvoids(s, ',');
    SplitOnJoin(ws, ',');
  }

  lemma StripAvoids(line: string, c: char)
    requires c !in line
    ensures c !in Strip(line)
  {
    var t := TrimStart(line);
    assert c !in t by { assert t == line[|line| - |t|..]; }
    var s := TrimEnd(t);
    assert s == t[..|s|];
  }

  /** The non-blank lines among `lines`, each rewritten. */
  function Converted(lines: seq<string>): (r: seq<string>)
    ensures |r| <= |lines|
  {
    if lines == [] then []
    else
      var init := lines[..|lines| - 1];
      var last := lines[|lines| - 1];
      if Strip(last) != [] then
        Converted(init) + [CsvLine(last)]
      else Converted(init)
  }

  /** No rewritten line holds whitespace. */
  lemma {:induction false} ConvertedNoSpace(lines: seq<string>)
    ensures forall k :: 0 <= k < |Converted(lines)| ==> NoSpace(Converted(lines)[k])
  {
    if lines != [] {
      var init := lines[..|lines| - 1];
      var last := lines[|lines| - 1];
      ConvertedNoSpace(init);
      var front := Converted(init);
      var r := Converted(lines);
      assert r == front + (if Strip(last) != [] then [CsvLine(last)] else []);
      forall k | 0 <= k < |r| ensures NoSpace(r[k]) {
        if k < |front| {
          assert r[k] == front[k];
        } else {
          assert r[k] == CsvLine(last);
        }
      }
    }
  }

  /** `lines[:n]`. */
  function Take(lines: seq<string>, n: nat): seq<string> {
    if n <= |lines| then lines[..n] else lines
  }

  datatype Parsed = Csv(text: string) | TooShort

  /** `parse_special_format_preview` (with at most `previewRows` data
      lines) and `parse_special_format_complete` (with all), up to the text
      handed to pandas: fewer than two lines is an error. */
  function SpecialCsv(content: string, previewRows: Option<nat>): Parsed {
    var lines := SplitOn(Strip(content), '\n');
    if |lines| < 2 then TooShort
    else Csv(Join("\n", Converted(Kept(lines, previewRows))))
  }

  /** The header and at most `previewRows` data lines, or all lines. */
  function Kept(lines: seq<string>, previewRows: Option<nat>): seq<string> {
    if previewRows.Some? then Take(lines, previewRows.value + 1) else lines
  }

  /** The loop of both parsers. */
  method ConvertLines(content: string, previewRows: Option<nat>) returns (res: Parsed)
    ensures res == SpecialCsv(content, previewRows)
  {
    var lines := SplitOn(Strip(content), '\n');
    if |lines| < 2 {
      return TooShort;
    }
    var kept := Kept(lines, previewRows);
    var processed := ConvertLoop(kept);
    res := Csv(Join("\n", processed));
  }

  /** Each non-blank line rewritten, blank lines dropped. */
  method ConvertLoop(kept: seq<string>) returns (processed: seq<string>)
    ensures processed == Converted(kept)
  {
    processed := [];
    for i := 0 to |kept|
      invariant processed == Converted(kept[..i])
    {
      var line := kept[i];
      ConvertedAppend(kept, i);
      if Strip(line) != [] {
        var processedLine := CsvLine(line);
        processed := processed + [processedLine];
      }
    }
    assert kept[..|kept|] == kept;
  }

  /** The text handed to pandas has one line per non-blank input line
      kept, and, for input without commas, each of its lines splits on
      commas into the fields of its input line. */
  lemma SpecialCsvLines(content: string, previewRows: Option<nat>)
    requires SpecialCsv(content, previewRows).Csv?
    ensures var lines := SplitOn(Strip(content), '\n');
            var kept := Kept(lines, previewRows);
            var out := Converted(kept);
            && |out| <= |kept|
            && (out != [] ==> SplitOn(SpecialCsv(content, previewRows).text, '\n') == out)
  {
    var lines := SplitOn(Strip(content), '\n');
    var kept := Kept(lines, previewRows);
    var out := Converted(kept);
    if out != [] {
      ConvertedNoSpace(kept);
      forall k | 0 <= k < |out| ensures '\n' !in out[k] {
        assert NoSpace(out[k]);
      }
      SplitOnJoin(out, '\n');
    }
  }

  /** Rewriting line by line: the k-th line of the output is the
      rewritten k-th non-blank kept line. Stated for one appended line;
      the whole sequence follows by the definition. */
  lemma ConvertedAppend(lines: seq<string>, i: nat)
    requires i < |lines|
    ensures Converted(lines[..i + 1]) ==
              Converted(lines[..i]) + (if Strip(lines[i]) != [] then [CsvLine(lines[i])] else [])
  {
    assert lines[..i + 1][..i] == lines[..i];
  }

  // ---------------------------------------------------------------------------
  // read_special_format_csv

  /** The text and the separator handed to pandas, or the exception raised. */
  datatype Rewritten = Rewritten(text: string, sep: char) | Unbound

  /** `lines[skip_rows:]` when `skip_rows > 0`. */
  function Skip(lines: seq<string>, skipRows: int): seq<string> {
    if skipRows <= 0 then lines
    else if skipRows >= |lines| then []
    else lines[skipRows..]
  }

  /** `re.sub(r"\s+", "\t", line.strip())`. */
  function TabLine(line: string): string {
    CollapseRuns(Strip(line), "\t")
  }

  /** Each line rewritten with tabs. */
  function TabLines(lines: seq<string>): (r: seq<string>)
    ensures |r| == |lines|
  {
    seq(|lines|, i requires 0 <= i < |lines| => TabLine(lines[i]))
  }

  /** `line.strip().replace(separator, ",")`. */
  function CommaLine(line: string, separator: string): string {
    Replace(Strip(line), separator, ",")
  }

  /** Each line rewritten with commas. */
  function CommaLines(lines: seq<string>, separator: string): (r: seq<string>)
    ensures |r| == |lines|
  {
    seq(|lines|, i requires 0 <= i < |lines| => CommaLine(lines[i], separator))
  }

  /** `read_special_format_csv` as written: the branch for the two
      characters `\t` maps the separator to a tab but builds no frame, so
      the method fails when it reads the frame. */
  function ReadSpecialAsWritten(content: string, separator: string, skipRows: int): Rewritten {
    var lines := Skip(SplitOn(Strip(content), '\n'), skipRows);
    if separator == "\\t" then Unbound
    else if separator == "  " then Rewritten(Join("\n", TabLines(lines)), '\t')
    else Rewritten(Join("\n", CommaLines(lines, separator)), ',')
  }

  /** The evidently intended `read_special_format_csv`: `\t` spelled with
      a backslash stands for the tab, which is then replaced by commas like
      any other one-character separator. */
  function ReadSpecial(content: string, separator: string, skipRows: int): Rewritten {
    var lines := Skip(SplitOn(Strip(content), '\n'), skipRows);
    var sep := if separator == "\\t" then "\t" else separator;
    if sep == "  " then Rewritten(Join("\n", TabLines(lines)), '\t')
    else Rewritten(Join("\n", CommaLines(lines, sep)), ',')
  }

  /** As written, the spelled-out tab separator always fails. */
  lemma TabSeparatorFails(content: string, skipRows: int)
    ensures ReadSpecialAsWritten(content, "\\t", skipRows) == Unbound
  {
  }

  /** In the intended reading, the spelled-out tab behaves exactly as the
      tab character; for every other separator both readings agree. */
  lemma ReadSpecialTab(content: string, separator: string, skipRows: int)
    ensures ReadSpecial(content, "\\t", skipRows) == ReadSpecial(content, "\t", skipRows)
    ensures ReadSpecial(content, "\\t", skipRows).Rewritten?
    ensures separator != "\\t" ==>
              ReadSpecialAsWritten(content, separator, skipRows) == ReadSpecial(content, separator, skipRows)
  {
  }

  /** A tab-separated line with no comma becomes the same line with commas. */
  lemma TabsBecomeCommas()
    ensures ReadSpecial("t\tv", "\\t", 0) == Rewritten("t,v", ',')
  {
    var line := "t\tv";
    StripPlain();
    assert Join("\n", [line]) == line;
    SplitOnJoin([line], '\n');
    var lines := SplitOn(Strip(line), '\n');
    assert lines == [line];
    assert Skip(lines, 0) == lines;
    TabLineToCommas();
    assert CommaLines([line], "\t") == ["t,v"];
    assert Join("\n", ["t,v"]) == "t,v";
  }

  lemma StripPlain()
    ensures Strip("t\tv") == "t\tv"
  {
    var line := "t\tv";
    assert TrimStart(line) == line;
    assert TrimEnd(line) == line;
  }

  lemma TabLineToCommas()
    ensures CommaLine("t\tv", "\t") == "t,v"
  {
    var line := "t\tv";
    StripPlain();
    ReplaceSkips("t", "\tv", "\t", ",");
    ReplaceFront("\t", "v", ",");
    ReplaceAbsent("v", "\t", ",");
    assert "t" + "\tv" == line && "\t" + "v" == "\tv";
    assert Replace(line, "\t", ",") == "t" + ("," + "v");
  }

  /** In the multi-space branch a non-blank line becomes its
      whitespace-separated fields with one tab between them. */
  lemma TabLineFields(line: string)
    requires Strip(line) != []
    ensures SplitOn(TabLine(line), '\t') == SplitWhitespace(Strip(line))
  {
    var s := Strip(line);
    CollapseRunsJoin(s, "\t");
    var ws := SplitWhitespace(s);
    forall k | 0 <= k < |ws| ensures '\t' !in ws[k] {
      assert NoSpace(ws[k]) && IsSpace('\t');
    }
    SplitOnJoin(ws, '\t');
  }

  /** In the comma branch with a one-character separator, a line without
      commas becomes its pieces between separators with one comma between
      them. */
  lemma CommaLineFields(line: string, c: char)
    requires ',' !in line
    ensures SplitOn(CommaLine(line, [c]), ',') == SplitOn(Strip(line), c)
  {
    StripAvoids(line, ',');
    ReplaceCharSplit(Strip(line), c, ',');
  }

  /** The text handed to pandas splits back into exactly the rewritten
      lines, in order: the tab form in the multi-space branch, the comma
      form otherwise. */
  lemma ReadSpecialLines(content: string, separator: string, skipRows: int)
    ensures var lines := Skip(SplitOn(Strip(content), '\n'), skipRows);
            var sep := if separator == "\\t" then "\t" else separator;
            var r := ReadSpecial(content, separator, skipRows);
            && r.Rewritten?
            && (lines != [] ==>
                  SplitOn(r.text, '\n') == if sep == "  " then TabLines(lines) else CommaLines(lines, sep))
  {
    var all := SplitOn(Strip(content), '\n');
    var lines := Skip(all, skipRows);
    var sep := if separator == "\\t" then "\t" else separator;
    if lines != [] {
      forall k | 0 <= k < |lines| ensures '\n' !in lines[k] {
        SkipAt(all, skipRows, k);
      }
      var out := if sep == "  " then TabLines(lines) else CommaLines(lines, sep);
      forall k | 0 <= k < |out| ensures '\n' !in out[k] {
        StripAvoids(lines[k], '\n');
        if sep == "  " {
          CollapseRunsAvoids(Strip(lines[k]), "\t", '\n');
        } else {
          ReplaceAvoids(Strip(lines[k]), sep, ",", '\n');
        }
      }
      SplitOnJoin(out, '\n');
    }
  }

  /** A line kept by `Skip` is a line of the input. */
  lemma SkipAt(lines: seq<string>, skipRows: int, k: nat)
    requires k < |Skip(lines, skipRows)|
    ensures Skip(lines, skipRows)[k] in lines
  {
    if skipRows > 0 {
      assert Skip(lines, skipRows)[k] == lines[skipRows + k];
    }
  }

  /** The loop of `read_special_format_csv` (intended reading). */
  method RewriteSpecial(content: string, separator: string, skipRows: int) returns (res: Rewritten)
    ensures res == ReadSpecial(content, separator, skipRows)
  {
    var lines := SplitOn(Strip(content), '\n');
    if skipRows > 0 {
      lines := Skip(lines, skipRows);
    }
    var sep := separator;
    if sep == "\\t" {
      sep := "\t";
    }
    if sep == "  " {
      var processed := TabLoop(lines);
      res := Rewritten(Join("\n", processed), '\t');
    } else {
      var processed := CommaLoop(lines, sep);
      res := Rewritten(Join("\n", processed), ',');
    }
  }

  /** The multi-space branch: each stripped line with its whitespace runs
      replaced by one tab. */
  method TabLoop(lines: seq<string>) returns (processed: seq<string>)
    ensures processed == TabLines(lines)
  {
    ghost var target := TabLines(lines);
    processed := [];
    for i := 0 to |lines|
      invariant processed == target[..i]
    {
      Sorting.PrefixStep(target, i);
      processed := processed + [TabLine(lines[i])];
    }
    assert target[..|lines|] == target;
  }

  /** The one-character branch: each stripped line with the separator
      replaced by commas. */
  method CommaLoop(lines: seq<string>, sep: string) returns (processed: seq<string>)
    ensures processed == CommaLines(lines, sep)
  {
    ghost var target := CommaLines(lines, sep);
    processed := [];
    for i := 0 to |lines|
      invariant processed == target[..i]
    {
      Sorting.PrefixStep(target, i);
      processed := processed + [CommaLine(lines[i], sep)];
    }
    assert target[..|lines|] == target;
  }
}
