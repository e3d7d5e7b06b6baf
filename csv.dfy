/**
 * The text format of `data/weights.csv`: a header line `date,weight` and one
 * `date,weight` line per entry, written without quoting, and the parser that reads
 * it back (trim the file, split on line breaks, drop the first line, trim each line,
 * skip blank lines, split each remaining line on commas).
 */
module Csv {
  import opened Text
  import opened Numbers

  const Header: string := "date,weight"
  /** What a freshly created file holds. */
  const InitialContent: string := Header + "\n"

  datatype Entry = Entry(date: string, weight: Num)

  /** A file written by the store starts with the header line. */
  predicate HasHeader(content: string) {
    InitialContent <= content
  }

  /** A date that survives a write and a read unchanged: it holds no field or line
      separator and does not start with white space (which the per-line trim removes). */
  predicate CleanDate(date: string) {
    ',' !in date && '\n' !in date && (date != [] ==> !IsSpace(date[0]))
  }

  /** The line `${d.date},${d.weight}` of one entry: it ends in the weight's text,
      never in white space, and holds a line break only if the date does. */
  function EntryLine(e: Entry): (r: string)
    ensures r != [] && !IsSpace(r[|r| - 1])
    ensures '\n' in r <==> '\n' in e.date
  {
    var w := NumberText(e.weight);
    var r := e.date + "," + w;
    assert r[|r| - 1] == w[|w| - 1];
    assert forall i :: |e.date| <= i < |r| ==> r[i] == ',' || r[i] in w;
    r
  }

  /** An entry's line is its date, a comma, and the weight's text at the end. */
  lemma EntryLineEnds(e: Entry)
    ensures var line, w := EntryLine(e), NumberText(e.weight);
      |e.date| < |line| && line[..|e.date|] == e.date && line[|e.date|] == ','
      && |w| <= |line| && line[|line| - |w|..] == w
  {
  }

  /** `data.map((d) => `${d.date},${d.weight}`)`: one line per entry. */
  function Lines(data: seq<Entry>): (r: seq<string>)
    ensures |r| == |data|
    ensures forall i :: 0 <= i < |r| ==> ('\n' in r[i] <==> '\n' in data[i].date)
  {
    seq(|data|, i requires 0 <= i < |data| => EntryLine(data[i]))
  }

  /** What `writeFullCsv(data)` puts in the file: header, a line break, and the
      entry lines joined by line breaks (so no trailing line break after the last). */
  function Render(data: seq<Entry>): (r: string)
    ensures HasHeader(r)
    ensures data == [] ==> r == InitialContent
  {
    Header + "\n" + Join(Lines(data), '\n')
  }

  /** One non-blank line: `const [date, weight] = line.split(",")`; the weight of a
      line without a comma is `Number(undefined)`, which is NaN. */
  function LineToEntry(line: string): (r: Entry)
    ensures r.date <= line && ',' !in r.date
    ensures |r.date| < |line| ==> line[|r.date|] == ','
  {
    SplitFirst(line, ',');
    SplitPieces(line, ',');
    var fields := Split(line, ',');
    Entry(fields[0], if |fields| > 1 then NumberOfText(fields[1]) else NaN)
  }

  /** The rows after the header: each is trimmed, blank ones are skipped, and the
      others become one entry each, in order. */
  function RowsToEntries(rows: seq<string>): (r: seq<Entry>)
    ensures |r| <= |rows|
  {
    if rows == [] then []
    else
      var line := Trim(rows[0]);
      (if line == [] then [] else [LineToEntry(line)]) + RowsToEntries(rows[1..])
  }

  /** `parseCsvToJson(content)`. The first line is never read as an entry, so a
      file of a single line holds none. */
  function Parse(content: string): (r: seq<Entry>)
    ensures '\n' !in Trim(content) ==> r == []
  {
    SplitSeveral(Trim(content), '\n');
    RowsToEntries(Split(Trim(content), '\n')[1..])
  }

  // ----- The line parser -----

  /** A line without a comma is all date, and its weight is NaN. */
  lemma LineWithoutComma(line: string)
    requires ',' !in line
    ensures LineToEntry(line) == Entry(line, NaN)
  {
    SplitNoSeparator(line, ',');
  }

  /** The date is the text before the first comma and the weight is read from the
      text between the first and the second comma (or the end of the line). */
  lemma LineWithComma(date: string, weight: string, tail: string)
    requires ',' !in date && ',' !in weight
    requires tail == [] || tail[0] == ','
    ensures LineToEntry(date + "," + weight + tail) == Entry(date, NumberOfText(weight))
  {
    var line := date + "," + weight + tail;
    assert line == date + [','] + (weight + tail);
    SplitConcat(date, weight + tail, ',');
    SplitNoSeparator(date, ',');
    if tail == [] {
      assert weight + tail == weight;
      SplitNoSeparator(weight, ',');
    } else {
      assert weight + tail == weight + [','] + tail[1..];
      SplitConcat(weight, tail[1..], ',');
      SplitNoSeparator(weight, ',');
    }
  }

  /** An entry with a clean date reads back from its own line. */
  lemma EntryLineRoundTrip(e: Entry)
    requires CleanDate(e.date)
    ensures Trim(EntryLine(e)) == EntryLine(e)
    ensures LineToEntry(EntryLine(e)) == e
  {
    var w := NumberText(e.weight);
    var line := EntryLine(e);
    assert line == e.date + "," + w + [];
    assert line[|line| - 1] == w[|w| - 1];
    assert line[0] == if e.date == [] then ',' else e.date[0];
    TrimNoEdgeSpace(line);
    LineWithComma(e.date, w, []);
    NumberTextRoundTrip(e.weight);
  }

  // ----- The row filter -----

  /** Rows are read independently of each other: the entries of two runs of rows
      are the entries of the first followed by those of the second. */
  lemma {:induction false} RowsConcat(a: seq<string>, b: seq<string>)
    ensures RowsToEntries(a + b) == RowsToEntries(a) + RowsToEntries(b)
    decreases |a|
  {
    if a == [] {
      assert a + b == b;
    } else {
      assert (a + b)[1..] == a[1..] + b;
      RowsConcat(a[1..], b);
    }
  }

  /** A row that is blank after trimming yields nothing; any other row yields
      exactly the entry of its trimmed text. */
  lemma RowsSingle(row: string)
    ensures AllSpace(row) ==> RowsToEntries([row]) == []
    ensures !AllSpace(row) ==> RowsToEntries([row]) == [LineToEntry(Trim(row))]
  {
    TrimEmpty(row);
    assert [row][1..] == [];
  }

  /** Every entry read from rows without line breaks has a clean date. */
  lemma {:induction false} RowsClean(rows: seq<string>)
    requires forall i :: 0 <= i < |rows| ==> '\n' !in rows[i]
    ensures forall j :: 0 <= j < |RowsToEntries(rows)| ==> CleanDate(RowsToEntries(rows)[j].date)
    decreases |rows|
  {
    if rows != [] {
      RowsClean(rows[1..]);
      var line := Trim(rows[0]);
      if line != [] {
        TrimKeepsCharacters(rows[0]);
        SplitFirst(line, ',');
        SplitPieces(line, ',');
        var d := LineToEntry(line).date;
        assert d[..] <= line;
        assert '\n' !in d by {
          forall k | 0 <= k < |d| ensures d[k] != '\n' { assert d[k] == line[k]; assert line[k] in line; }
        }
        assert d != [] ==> d[0] == line[0];
      }
      var head := if line == [] then [] else [LineToEntry(line)];
      assert RowsToEntries(rows) == head + RowsToEntries(rows[1..]);
    }
  }

  /** Trailing white space in the file (a final line break, blank lines) adds no
      entry and changes none. */
  lemma DropTrailingSpaceChar(u: string, ch: char)
    requires IsSpace(ch)
    ensures RowsToEntries(Split(u + [ch], '\n')[1..]) == RowsToEntries(Split(u, '\n')[1..])
  {
    if ch == '\n' {
      DropTrailingLineBreak(u);
    } else {
      DropTrailingBlank(u, ch);
    }
  }

  lemma DropTrailingLineBreak(u: string)
    ensures RowsToEntries(Split(u + ['\n'], '\n')[1..]) == RowsToEntries(Split(u, '\n')[1..])
  {
    var r := Split(u, '\n');
    SplitSnocSeparator(u, '\n');
    assert Split(u + ['\n'], '\n')[1..] == r[1..] + [[]];
    RowsConcat(r[1..], [[]]);
    RowsSingle([]);
  }

  lemma DropTrailingBlank(u: string, ch: char)
    requires IsSpace(ch) && ch != '\n'
    ensures RowsToEntries(Split(u + [ch], '\n')[1..]) == RowsToEntries(Split(u, '\n')[1..])
  {
    var r := Split(u, '\n');
    SplitSnoc(u, ch, '\n');
    var k := |r|;
    var r' := r[..k - 1] + [r[k - 1] + [ch]];
    assert Split(u + [ch], '\n') == r';
    if k == 1 {
      assert |r'[1..]| == 0 && |r[1..]| == 0;
    } else {
      var mid, last := r[1..k - 1], r[k - 1];
      assert r'[1..] == mid + [last + [ch]];
      assert r[1..] == mid + [last];
      RowsConcat(mid, [last + [ch]]);
      RowsConcat(mid, [last]);
      LastRowTrailingSpace(last, ch);
    }
  }

  lemma LastRowTrailingSpace(row: string, ch: char)
    requires IsSpace(ch)
    ensures RowsToEntries([row + [ch]]) == RowsToEntries([row])
  {
    TrimEndAppendSpace(row, ch);
    assert Trim(row + [ch]) == Trim(row);
    assert [row + [ch]][1..] == [] && [row][1..] == [];
  }

  lemma {:induction false} DropTrailingSpace(u: string, w: string)
    requires AllSpace(w)
    ensures RowsToEntries(Split(u + w, '\n')[1..]) == RowsToEntries(Split(u, '\n')[1..])
    decreases |w|
  {
    if w != [] {
      var w' := w[..|w| - 1];
      assert AllSpace(w') by {
        forall i | 0 <= i < |w'| ensures IsSpace(w'[i]) { assert w'[i] == w[i]; }
      }
      assert u + w == (u + w') + [w[|w| - 1]];
      DropTrailingSpaceChar(u + w', w[|w| - 1]);
      DropTrailingSpace(u, w');
    } else {
      assert u + w == u;
    }
  }

  /** For a file that starts with a non-space character, the whole-file trim only
      removes trailing white space, which the row filter ignores anyway. */
  lemma ParseUntrimmed(content: string)
    requires content != [] && !IsSpace(content[0])
    ensures Parse(content) == RowsToEntries(Split(content, '\n')[1..])
  {
    var t := TrimEnd(content);
    TrimEndFacts(content);
    assert t[0] == content[0];
    assert Trim(content) == t;
    assert content == t + content[|t|..];
    DropTrailingSpace(t, content[|t|..]);
  }

  // ----- Properties of the file format -----

  lemma HeaderSplit()
    ensures Split(Header, '\n') == [Header]
  {
    SplitNoSeparator(Header, '\n');
  }

  /** The freshly initialised file parses to the empty list. */
  lemma ParseInitial()
    ensures Parse(InitialContent) == []
  {
    assert InitialContent == Header + ['\n'];
    TrimEndAppendSpace(Header, '\n');
    assert Trim(InitialContent) == Header;
    HeaderSplit();
  }

  lemma {:induction false} RowsOfLines(data: seq<Entry>)
    requires forall i :: 0 <= i < |data| ==> CleanDate(data[i].date)
    ensures RowsToEntries(Lines(data)) == data
    decreases |data|
  {
    if data != [] {
      assert Lines(data) == [EntryLine(data[0])] + Lines(data[1..]);
      RowsConcat([EntryLine(data[0])], Lines(data[1..]));
      EntryLineRoundTrip(data[0]);
      assert [EntryLine(data[0])][1..] == [];
      RowsOfLines(data[1..]);
      assert data == [data[0]] + data[1..];
    }
  }

  /** The lines after the header of a rewritten file are the entry lines. */
  lemma RenderRows(data: seq<Entry>)
    requires data != []
    requires forall i :: 0 <= i < |data| ==> '\n' !in data[i].date
    ensures Split(Render(data), '\n')[1..] == Lines(data)
  {
    var lines := Lines(data);
    forall i | 0 <= i < |lines| ensures '\n' !in lines[i] {
      assert lines[i] == data[i].date + "," + NumberText(data[i].weight);
    }
    assert Render(data) == Header + ['\n'] + Join(lines, '\n');
    SplitConcat(Header, Join(lines, '\n'), '\n');
    HeaderSplit();
    SplitJoin(lines, '\n');
  }

  /** Round trip: reading back what `writeFullCsv` wrote gives the same entries, in
      the same order, provided every date is clean. */
  lemma ParseRender(data: seq<Entry>)
    requires forall i :: 0 <= i < |data| ==> CleanDate(data[i].date)
    ensures Parse(Render(data)) == data
  {
    if data == [] {
      ParseInitial();
    } else {
      var r := Render(data);
      assert r[0] == 'd';
      ParseUntrimmed(r);
      RenderRows(data);
      RowsOfLines(data);
    }
  }

  /** Every entry the parser produces has a clean date. */
  lemma ParseClean(content: string)
    ensures forall j :: 0 <= j < |Parse(content)| ==> CleanDate(Parse(content)[j].date)
  {
    var pieces := Split(Trim(content), '\n');
    SplitPieces(Trim(content), '\n');
    assert forall i :: 0 <= i < |pieces[1..]| ==> '\n' !in pieces[1..][i] by {
      forall i | 0 <= i < |pieces[1..]| ensures '\n' !in pieces[1..][i] {
        assert pieces[1..][i] == pieces[i + 1];
      }
    }
    RowsClean(pieces[1..]);
  }

  /** Writing back what was read leaves the entry list as it was. */
  lemma RenderParse(content: string)
    ensures Parse(Render(Parse(content))) == Parse(content)
  {
    ParseClean(content);
    ParseRender(Parse(content));
  }

  /** A line break and a line without one add that line as the last row. */
  lemma AppendRows(content: string, line: string)
    requires '\n' !in line
    ensures Split(content + "\n" + line, '\n')[1..] == Split(content, '\n')[1..] + [line]
  {
    assert content + "\n" + line == content + ['\n'] + line;
    SplitConcat(content, line, '\n');
    SplitNoSeparator(line, '\n');
    var r := Split(content, '\n');
    assert (r + [line])[1..] == r[1..] + [line];
  }

  /** Appending `"\n" + date,weight` to a file that starts with the header adds
      exactly that entry at the end of the list: the extra line break only makes a
      blank line, which the parser skips. */
  lemma ParseAppend(content: string, e: Entry)
    requires HasHeader(content)
    requires CleanDate(e.date)
    ensures Parse(content + "\n" + EntryLine(e)) == Parse(content) + [e]
  {
    var line := EntryLine(e);
    var s := content + "\n" + line;
    assert content[0] == 'd' by { assert InitialContent[0] == 'd'; }
    assert s[0] == 'd';
    ParseUntrimmed(content);
    ParseUntrimmed(s);
    AppendRows(content, line);
    RowsConcat(Split(content, '\n')[1..], [line]);
    EntryLineRoundTrip(e);
    assert [line][1..] == [];
  }
}
