/** The Markdown reader of the report-to-PDF script: the single pass over the
    lines of a Markdown text that classifies each line and turns the text into
    a list of blocks (headings, bullets, numbered items, tables, spacers and
    paragraphs), and the inline `**` bold rewriter. */
module MdBlocks {
  import opened Wrappers
  import opened PyStr

  /** One flowable of the document. `markup` is the exact text handed to
      ReportLab's `Paragraph`. */
  datatype Block =
    | Heading(level: nat, markup: string)
    | Bullet(markup: string)
    | Numbered(markup: string)
    | Paragraph(markup: string)
    | Table(rows: seq<seq<string>>)
    | Spacer

  const BoldMarker: string := "**"
  const BulletMark: string := "\U{2022} "

  // ---------------------------------------------------------------------
  // parse_bold

  function Wrap(part: string): string
  {
    "<b>" + part + "</b>"
  }

  /** The parts after the rewrite: every odd-indexed part in bold. */
  function Emphasised(parts: seq<string>): (es: seq<string>)
    ensures |es| == |parts|
    ensures forall k :: 0 <= k < |parts| ==> es[k] == if k % 2 == 1 then Wrap(parts[k]) else parts[k]
  {
    seq(|parts|, k requires 0 <= k < |parts| => if k % 2 == 1 then Wrap(parts[k]) else parts[k])
  }

  /** What `parse_bold(text)` returns. */
  function BoldMarkup(text: string): string
  {
    Join(Emphasised(Split(text, BoldMarker)), "")
  }

  /** `parse_bold`: split at `**`, wrap the parts at odd positions, re-join. */
  method ParseBold(text: string) returns (r: string)
    ensures r == BoldMarkup(text)
  {
    var parts := Split(text, BoldMarker);
    ghost var original := parts;
    var j := 1;
    while j < |parts|
      invariant 1 <= j <= |parts| + 1 && j % 2 == 1
      invariant WrappedBelow(parts, original, j)
    {
      WrapStep(parts, original, j);
      parts := parts[j := "<b>" + parts[j] + "</b>"];
      j := j + 2;
    }
    WrappedAll(parts, original, j);
    r := Join(parts, "");
  }

  /** `parts` is `original` with the odd positions below `j` in bold. */
  predicate WrappedBelow(parts: seq<string>, original: seq<string>, j: nat)
  {
    |parts| == |original|
    && forall k :: 0 <= k < |parts| ==> parts[k] == if k < j && k % 2 == 1 then Wrap(original[k]) else original[k]
  }

  lemma WrapStep(parts: seq<string>, original: seq<string>, j: nat)
    requires WrappedBelow(parts, original, j) && j < |parts| && j % 2 == 1
    ensures WrappedBelow(parts[j := "<b>" + parts[j] + "</b>"], original, j + 2)
  {
    var next := parts[j := "<b>" + parts[j] + "</b>"];
    forall k | 0 <= k < |next|
      ensures next[k] == if k < j + 2 && k % 2 == 1 then Wrap(original[k]) else original[k]
    {
      if k == j + 1 {
        assert k % 2 == 0;
      }
    }
  }

  lemma WrappedAll(parts: seq<string>, original: seq<string>, j: nat)
    requires WrappedBelow(parts, original, j) && j >= |parts|
    ensures parts == Emphasised(original)
  {
  }

  /** Text without `**` is left as it is. */
  lemma BoldWithoutMarker(text: string)
    requires !ContainsSub(text, BoldMarker)
    ensures BoldMarkup(text) == text
  {
    SplitWithout(text, BoldMarker);
    assert Emphasised([text]) == [text];
  }

  /** The texts that end up in bold: the parts at odd positions. */
  function BoldSpans(parts: seq<string>): (spans: seq<string>)
    ensures |spans| == |parts| / 2
    ensures forall m :: 0 <= m < |spans| ==> spans[m] == parts[2 * m + 1]
  {
    seq(|parts| / 2, m requires 0 <= m < |parts| / 2 => parts[2 * m + 1])
  }

  /** k occurrences of `**` give floor((k + 1) / 2) bold spans, each put
      between `<b>` and `</b>` at its position; the other parts are kept. */
  lemma BoldSpanCount(text: string)
    ensures var parts := Split(text, BoldMarker);
            var es := Emphasised(parts);
            && |BoldSpans(parts)| == (Occurrences(text, BoldMarker) + 1) / 2
            && (forall m :: 0 <= m < |BoldSpans(parts)| ==> es[2 * m + 1] == Wrap(BoldSpans(parts)[m]))
            && (forall k :: 0 <= k < |parts| && k % 2 == 0 ==> es[k] == parts[k])
  {
    SplitCount(text, BoldMarker);
    EmphasisedSpans(Split(text, BoldMarker));
  }

  /** The rewrite puts each bold span in bold at its odd position and keeps
      the even-positioned parts. */
  lemma EmphasisedSpans(parts: seq<string>)
    ensures var es := Emphasised(parts);
            && (forall m :: 0 <= m < |BoldSpans(parts)| ==> es[2 * m + 1] == Wrap(BoldSpans(parts)[m]))
            && (forall k :: 0 <= k < |parts| && k % 2 == 0 ==> es[k] == parts[k])
  {
    var es := Emphasised(parts);
    var spans := BoldSpans(parts);
    forall m | 0 <= m < |spans|
      ensures es[2 * m + 1] == Wrap(spans[m])
    {
      var k := 2 * m + 1;
      assert k % 2 == 1;
      assert spans[m] == parts[k];
    }
  }

  /** An odd number of `**` leaves a last, unmatched marker; the text after it
      is still closed with `</b>`. */
  lemma UnmatchedMarkerClosed(text: string)
    requires Occurrences(text, BoldMarker) % 2 == 1
    ensures var r := BoldMarkup(text); |r| >= 4 && r[|r| - 4..] == "</b>"
  {
    var parts := Split(text, BoldMarker);
    SplitCount(text, BoldMarker);
    var es := Emphasised(parts);
    var last := |es| - 1;
    assert last % 2 == 1;
    assert es[last] == Wrap(parts[last]);
    LastSplit(es);
    JoinSnoc(es[..last], es[last], "");
    EndsClosed(Join(es[..last], "") + "", parts[last]);
  }

  /** Text ending in a bold part ends with `</b>`. */
  lemma EndsClosed(before: string, part: string)
    ensures var r := before + Wrap(part); |r| >= 4 && r[|r| - 4..] == "</b>"
  {
    var r := before + Wrap(part);
    assert r == (before + "<b>" + part) + "</b>";
  }

  // ---------------------------------------------------------------------
  // Line classes

  /** `line[0].isdigit() and '.' in line` on a non-empty stripped line. */
  predicate LooksNumbered(s: string)
  {
    s != [] && IsDigit(s[0]) && '.' in s
  }

  predicate StartsItemOrHeading(s: string)
  {
    StartsWith(s, "* ") || StartsWith(s, "- ") || StartsWith(s, "#")
  }

  /** A line a bullet or numbered item absorbs: non-blank, not starting
      another item or a heading, without `|`, and not looking numbered. */
  predicate Continues(line: string)
  {
    var s := Strip(line);
    !StartsItemOrHeading(s) && '|' !in s && !LooksNumbered(s) && s != []
  }

  /** Where the lines an item absorbs, starting at `j`, end. */
  function ContinuationEnd(lines: seq<string>, j: nat): (e: nat)
    requires j <= |lines|
    ensures j <= e <= |lines|
    ensures forall k {:trigger Continues(lines[k])} :: j <= k < e ==> Continues(lines[k])
    ensures e < |lines| ==> !Continues(lines[e])
    decreases |lines| - j
  {
    if j < |lines| && Continues(lines[j]) then ContinuationEnd(lines, j + 1) else j
  }

  /** The text an item's first line grows by: `' ' + line.strip()` for each
      absorbed line. */
  function Absorbed(lines: seq<string>, j: nat, e: nat): string
    requires j <= e <= |lines|
    decreases e - j
  {
    if e == j then [] else Absorbed(lines, j, e - 1) + " " + Strip(lines[e - 1])
  }

  /** Where a table starting at `j` ends: the first line without `|`. */
  function TableEnd(lines: seq<string>, j: nat): (e: nat)
    requires j <= |lines|
    ensures j <= e <= |lines|
    ensures forall k :: j <= k < e ==> '|' in lines[k]
    ensures e < |lines| ==> '|' !in lines[e]
    decreases |lines| - j
  {
    if j < |lines| && '|' in lines[j] then TableEnd(lines, j + 1) else j
  }

  /** A cell as stored: non-empty and already stripped. */
  predicate Clean(c: string)
  {
    c != [] && Strip(c) == c
  }

  /** The non-empty stripped fields of `fields`. */
  function NonBlankStripped(fields: seq<string>): (cells: seq<string>)
    ensures forall k :: 0 <= k < |cells| ==> Clean(cells[k])
  {
    if fields == [] then []
    else
      var rest := NonBlankStripped(fields[1..]);
      var c := Strip(fields[0]);
      if c != [] then
        StripIdempotent(fields[0]);
        [c] + rest
      else rest
  }

  /** `NonBlankStripped` is a filter-map: it takes a single field to its strip
      when that is non-empty and to nothing otherwise, and it distributes over
      concatenation. So the cells are exactly the non-blank stripped fields,
      in field order. */
  lemma NonBlankStrippedOne(f: string)
    ensures NonBlankStripped([f]) == if Strip(f) != [] then [Strip(f)] else []
  {
    assert [f][1..] == [];
  }

  lemma {:induction false} NonBlankStrippedConcat(a: seq<string>, b: seq<string>)
    ensures NonBlankStripped(a + b) == NonBlankStripped(a) + NonBlankStripped(b)
    decreases |a|
  {
    if a == [] {
      assert a + b == b;
    } else {
      assert (a + b)[0] == a[0];
      assert (a + b)[1..] == a[1..] + b;
      NonBlankStrippedConcat(a[1..], b);
    }
  }

  /** A non-blank field's strip is one of the cells, and every cell is the
      strip of some field. */
  lemma {:induction false} NonBlankStrippedMembers(fields: seq<string>)
    ensures forall k :: 0 <= k < |fields| && Strip(fields[k]) != [] ==> Strip(fields[k]) in NonBlankStripped(fields)
    ensures forall c :: c in NonBlankStripped(fields) ==> exists k :: 0 <= k < |fields| && Strip(fields[k]) == c
    decreases |fields|
  {
    if fields != [] {
      NonBlankStrippedMembers(fields[1..]);
      forall k | 0 <= k < |fields| && Strip(fields[k]) != []
        ensures Strip(fields[k]) in NonBlankStripped(fields)
      {
        if k > 0 {
          assert fields[k] == fields[1..][k - 1];
        }
      }
      forall c | c in NonBlankStripped(fields)
        ensures exists k :: 0 <= k < |fields| && Strip(fields[k]) == c
      {
        if c in NonBlankStripped(fields[1..]) {
          var k :| 0 <= k < |fields[1..]| && Strip(fields[1..][k]) == c;
          assert fields[k + 1] == fields[1..][k];
        } else {
          assert Strip(fields[0]) == c;
        }
      }
    }
  }

  /** The cells of a table line. */
  function Cells(line: string): seq<string>
  {
    NonBlankStripped(Split(line, "|"))
  }

  predicate WellFormedRows(rows: seq<seq<string>>)
  {
    forall r :: 0 <= r < |rows| ==>
      rows[r] != [] && forall c :: 0 <= c < |rows[r]| ==> Clean(rows[r][c])
  }

  /** The rows of the table lines, rows without cells left out. */
  function Rows(tableLines: seq<string>): (rows: seq<seq<string>>)
    ensures WellFormedRows(rows)
  {
    if tableLines == [] then []
    else
      var rest := Rows(tableLines[..|tableLines| - 1]);
      var cells := Cells(tableLines[|tableLines| - 1]);
      if cells != [] then rest + [cells] else rest
  }

  /** `Rows` also distributes over concatenation, and keeps a single line's
      cells exactly when there are any: the rows are the non-empty cell lists
      of the lines, in line order. */
  lemma RowsOne(x: string)
    ensures Rows([x]) == if Cells(x) != [] then [Cells(x)] else []
  {
    RowsSnoc([], x);
    assert [] + [x] == [x];
  }

  lemma {:induction false} RowsConcat(a: seq<string>, b: seq<string>)
    ensures Rows(a + b) == Rows(a) + Rows(b)
    decreases |b|
  {
    if b == [] {
      assert a + b == a;
    } else {
      var b' := b[..|b| - 1];
      var x := b[|b| - 1];
      assert b == b' + [x];
      assert a + b == (a + b') + [x];
      RowsConcat(a, b');
      RowsSnoc(a + b', x);
      RowsSnoc(b', x);
    }
  }

  lemma RowsSnoc(tableLines: seq<string>, x: string)
    ensures Rows(tableLines + [x]) == Rows(tableLines) + if Cells(x) != [] then [Cells(x)] else []
  {
    assert (tableLines + [x])[..|tableLines|] == tableLines;
  }

  predicate IsSeparatorRow(row: seq<string>)
  {
    forall c :: 0 <= c < |row| ==> '-' in row[c] || ':' in row[c]
  }

  /** The rows kept: the second row goes when all its cells hold `-` or `:`.
      The header row always stays. */
  function DropSeparator(data: seq<seq<string>>): (rows: seq<seq<string>>)
    ensures rows == data || (|data| > 1 && IsSeparatorRow(data[1]) && rows == data[..1] + data[2..])
    ensures |data| > 1 && IsSeparatorRow(data[1]) ==> rows == data[..1] + data[2..] && |rows| == |data| - 1
    ensures rows != [] <==> data != []
    ensures data != [] ==> rows[0] == data[0]
    ensures WellFormedRows(data) ==> WellFormedRows(rows)
  {
    if |data| > 1 && IsSeparatorRow(data[1]) then data[0..1] + data[2..] else data
  }

  /** The number of leading `#` of a heading line. */
  function LeadingHashes(s: string): (level: nat)
    ensures level <= |s|
    ensures forall k :: 0 <= k < level ==> s[k] == '#'
    ensures level < |s| ==> s[level] != '#'
  {
    if s != [] && s[0] == '#' then 1 + LeadingHashes(s[1..]) else 0
  }

  /** The style a heading gets: `Heading{min(level, 6)}`. */
  function HeadingStyleLevel(level: nat): (n: nat)
    ensures n <= 6 && (level >= 1 ==> 1 <= n)
    ensures level <= 6 ==> n == level
    ensures 6 <= level ==> n == 6
  {
    if level < 6 then level else 6
  }

  /** The position of the first `.` of a line that has one. */
  function FirstDot(s: string): (d: nat)
    requires '.' in s
    ensures d < |s| && s[d] == '.' && '.' !in s[..d]
  {
    if s[0] == '.' then 0
    else
      assert s == [s[0]] + s[1..];
      var d := 1 + FirstDot(s[1..]);
      assert s[..d] == [s[0]] + s[1..][..d - 1];
      d
  }

  // ---------------------------------------------------------------------
  // One iteration of the outer loop

  /** The pending paragraph as a block, if there is one. */
  function Flush(para: seq<string>): (bs: seq<Block>)
    ensures |bs| <= 1 && (bs == [] <==> para == [])
  {
    if para == [] then [] else [Paragraph(BoldMarkup(Join(para, " ")))]
  }

  /** What one iteration does: the blocks it appends, the paragraph buffer it
      leaves, and the index the next iteration starts at. */
  datatype StepResult = StepResult(emitted: seq<Block>, para: seq<string>, next: nat)

  /** The heading of a stripped line starting with `#`. */
  function HeadingBlock(line: string): Block
  {
    var level := LeadingHashes(line);
    Heading(level, BoldMarkup(Strip(line[level..])))
  }

  /** The text of an item whose first line is `i`, given that line's own
      text: the absorbed lines that follow are added one by one. */
  function ItemText(lines: seq<string>, i: nat, first: string): string
    requires i < |lines|
  {
    first + Absorbed(lines, i + 1, ContinuationEnd(lines, i + 1))
  }

  /** A bullet at line `i`, `first` being its line's text after the marker. */
  function BulletBlock(lines: seq<string>, i: nat, first: string): Block
    requires i < |lines|
  {
    Bullet(BulletMark + BoldMarkup(ItemText(lines, i, first)))
  }

  /** A numbered item with number `n` at line `i`, `first` being the text
      after the first `.` of its line. */
  function NumberedBlock(lines: seq<string>, i: nat, n: int, first: string): Block
    requires i < |lines|
  {
    Numbered(IntToString(n) + ". " + BoldMarkup(ItemText(lines, i, first)))
  }

  /** A line that starts with a digit and holds a `.`: a numbered item when
      the text before the first `.` is an integer, else a paragraph line kept
      unstripped. The paragraph before it is flushed either way. */
  function NumberedStep(lines: seq<string>, i: nat, para: seq<string>, line: string): (r: StepResult)
    requires i < |lines| && '.' in line
    ensures i < r.next <= |lines|
  {
    var d := FirstDot(line);
    var num := ParseInt(Strip(line[..d]));
    if num.None? then StepResult(Flush(para), [lines[i]], i + 1)
    else StepResult(Flush(para) + [NumberedBlock(lines, i, num.value, Strip(line[d + 1..]))], [],
                    ContinuationEnd(lines, i + 1))
  }

  /** The table starting at line `i`. */
  function TableBlocks(lines: seq<string>, i: nat): (bs: seq<Block>)
    requires i <= |lines|
    ensures |bs| <= 1
  {
    var data := DropSeparator(Rows(lines[i..TableEnd(lines, i)]));
    if data != [] then [Table(data)] else []
  }

  /** The two-line test that opens a table. */
  predicate OpensTable(lines: seq<string>, i: nat, line: string)
  {
    '|' in line && i + 1 < |lines| && '|' in lines[i + 1]
  }

  /** The iteration at line `i` with the paragraph buffer `para`. Every
      iteration moves past at least the line it starts at: the inner loops'
      step back never undoes the first line they take. */
  function Step(lines: seq<string>, i: nat, para: seq<string>): (r: StepResult)
    requires i < |lines|
    ensures i < r.next <= |lines|
  {
    var line := Strip(lines[i]);
    if StartsWith(line, "#") then StepResult(Flush(para) + [HeadingBlock(line)], [], i + 1)
    else if StartsWith(line, "* ") || StartsWith(line, "- ") then
      StepResult(Flush(para) + [BulletBlock(lines, i, Strip(line[2..]))], [], ContinuationEnd(lines, i + 1))
    else if LooksNumbered(line) then NumberedStep(lines, i, para, line)
    else if OpensTable(lines, i, line) then
      StripKeeps(lines[i], '|');
      StepResult(Flush(para) + TableBlocks(lines, i), [], TableEnd(lines, i))
    else if line == [] then StepResult(Flush(para) + [Spacer], [], i + 1)
    else StepResult([], para + [line], i + 1)
  }

  /** The blocks appended from line `i` on, with buffer `para`, up to and
      including the final flush. */
  function ParseFrom(lines: seq<string>, i: nat, para: seq<string>): seq<Block>
    requires i <= |lines|
    decreases |lines| - i
  {
    if i == |lines| then Flush(para)
    else
      var s := Step(lines, i, para);
      s.emitted + ParseFrom(lines, s.next, s.para)
  }

  /** The blocks of a list of lines. */
  function Parse(lines: seq<string>): seq<Block>
  {
    ParseFrom(lines, 0, [])
  }

  /** The blocks `md_to_pdf` hands to the document builder for `mdText`. */
  function MdText(mdText: string): seq<Block>
  {
    Parse(SplitLines(mdText))
  }

  // ---------------------------------------------------------------------
  // md_to_pdf

  /** The flush that precedes every non-paragraph block. */
  method FlushParagraph(currentParagraph: seq<string>) returns (blocks: seq<Block>)
    ensures blocks == Flush(currentParagraph)
  {
    blocks := [];
    if currentParagraph != [] {
      var text := ParseBold(Join(currentParagraph, " "));
      blocks := [Paragraph(text)];
    }
  }

  /** One more continuation line: the run's end is unchanged and the
      absorbed text grows by that line, stripped. */
  lemma AbsorbStep(lines: seq<string>, i: nat, j: nat)
    requires 1 <= i <= j < |lines| && Continues(lines[j])
    ensures ContinuationEnd(lines, j + 1) == ContinuationEnd(lines, j)
    ensures Absorbed(lines, i, j + 1) == Absorbed(lines, i, j) + " " + Strip(lines[j])
  {
  }

  /** The absorbing loop of a bullet or numbered item whose first line is
      at `i - 1`, growing `text`; it returns the index of the item's last
      line (the loop's `i -= 1`). */
  method AbsorbContinuations(lines: seq<string>, i: nat, text: string) returns (last: nat, grown: string)
    requires 1 <= i <= |lines|
    ensures last + 1 == ContinuationEnd(lines, i)
    ensures grown == text + Absorbed(lines, i, ContinuationEnd(lines, i))
  {
    var j := i;
    grown := text;
    while j < |lines| && Continues(lines[j])
      invariant i <= j <= |lines|
      invariant ContinuationEnd(lines, j) == ContinuationEnd(lines, i)
      invariant grown == text + Absorbed(lines, i, j)
      decreases |lines| - j
    {
      var piece := Strip(lines[j]);
      AbsorbStep(lines, i, j);
      AppendAssoc(text, Absorbed(lines, i, j), " ", piece);
      grown := grown + " " + piece;
      j := j + 1;
    }
    last := j - 1;
  }

  /** The table branch: the table lines from `i`, their rows, the separator
      check; it returns the table (if any rows remain) and the index of the
      last table line. */
  method ReadTable(lines: seq<string>, i: nat) returns (blocks: seq<Block>, last: nat)
    requires i < |lines| && '|' in lines[i]
    ensures last + 1 == TableEnd(lines, i)
    ensures blocks == TableBlocks(lines, i)
  {
    var tableLines: seq<string> := [];
    var j := i;
    while j < |lines| && '|' in lines[j]
      invariant i <= j <= |lines|
      invariant TableEnd(lines, j) == TableEnd(lines, i)
      invariant tableLines == lines[i..j]
      decreases |lines| - j
    {
      tableLines := tableLines + [lines[j]];
      j := j + 1;
    }
    last := j - 1;
    var data: seq<seq<string>> := [];
    for k := 0 to |tableLines|
      invariant data == Rows(tableLines[..k])
    {
      var cells := Cells(tableLines[k]);
      PrefixSnoc(tableLines, k);
      RowsSnoc(tableLines[..k], tableLines[k]);
      if cells != [] {
        data := data + [cells];
      }
    }
    assert tableLines[..|tableLines|] == tableLines;
    assert data == Rows(lines[i..TableEnd(lines, i)]);
    if |data| > 1 && IsSeparatorRow(data[1]) {
      data := data[0..1] + data[2..];
    }
    blocks := if data != [] then [Table(data)] else [];
  }

  /** The `#` branch: count the leading `#`, then the rest in bold markup. */
  method ReadHeading(line: string) returns (b: Block)
    ensures b == HeadingBlock(line)
  {
    var level := 0;
    while level < |line| && line[level] == '#'
      invariant level <= LeadingHashes(line)
    {
      level := level + 1;
    }
    var text := ParseBold(Strip(line[level..]));
    b := Heading(level, text);
  }

  /** The numbered-item branch. When the text before the first `.` is not
      an integer the unstripped line joins the paragraph, after the old
      paragraph was flushed. */
  method ReadNumbered(lines: seq<string>, i: nat, currentParagraph: seq<string>, line: string)
    returns (emitted: seq<Block>, para: seq<string>, next: nat)
    requires i < |lines| && '.' in line
    ensures StepResult(emitted, para, next) == NumberedStep(lines, i, currentParagraph, line)
  {
    var flushed := FlushParagraph(currentParagraph);
    var dot := FirstDot(line);
    var num := ParseInt(Strip(line[..dot]));
    NumberedStepCases(lines, i, currentParagraph, line, dot, num);
    if num.None? {
      emitted, para, next := flushed, [lines[i]], i + 1;
    } else {
      var first := Strip(line[dot + 1..]);
      var item;
      item, next := ReadNumberedItem(lines, i, num.value, first);
      emitted, para := flushed + [item], [];
    }
  }

  /** The two outcomes of a numbered-looking line, by whether its number parses. */
  lemma NumberedStepCases(lines: seq<string>, i: nat, para: seq<string>, line: string, dot: nat, num: Option<int>)
    requires i < |lines| && '.' in line
    requires dot == FirstDot(line) && num == ParseInt(Strip(line[..dot]))
    ensures num.None? ==> NumberedStep(lines, i, para, line) == StepResult(Flush(para), [lines[i]], i + 1)
    ensures num.Some? ==>
              NumberedStep(lines, i, para, line)
              == StepResult(Flush(para) + [NumberedBlock(lines, i, num.value, Strip(line[dot + 1..]))], [],
                            ContinuationEnd(lines, i + 1))
  {
  }

  /** A bullet's absorbing loop and its markup. */
  method ReadBullet(lines: seq<string>, i: nat, first: string) returns (b: Block, next: nat)
    requires i < |lines|
    ensures b == BulletBlock(lines, i, first)
    ensures next == ContinuationEnd(lines, i + 1)
  {
    var last, text := AbsorbContinuations(lines, i + 1, first);
    text := ParseBold(text);
    b, next := Bullet(BulletMark + text), last + 1;
  }

  /** A numbered item's absorbing loop and its markup. */
  method ReadNumberedItem(lines: seq<string>, i: nat, n: int, first: string) returns (b: Block, next: nat)
    requires i < |lines|
    ensures b == NumberedBlock(lines, i, n, first)
    ensures next == ContinuationEnd(lines, i + 1)
  {
    var last, text := AbsorbContinuations(lines, i + 1, first);
    text := ParseBold(text);
    b, next := Numbered(IntToString(n) + ". " + text), last + 1;
  }

  /** The blocks after one more iteration: what it emitted, then the rest. */
  lemma ParseFromStep(lines: seq<string>, i: nat, para: seq<string>, before: seq<Block>, r: StepResult)
    requires i < |lines| && r == Step(lines, i, para)
    ensures before + ParseFrom(lines, i, para) == (before + r.emitted) + ParseFrom(lines, r.next, r.para)
  {
  }

  /** One iteration of the outer loop of `md_to_pdf` at line `i`: the
      classification of the stripped line and the branch it selects. `next`
      is the loop's `i` after the closing `i += 1`. */
  method StepAt(lines: seq<string>, i: nat, currentParagraph: seq<string>)
    returns (emitted: seq<Block>, para: seq<string>, next: nat)
    requires i < |lines|
    ensures StepResult(emitted, para, next) == Step(lines, i, currentParagraph)
  {
    var originalLine := lines[i];
    var line := Strip(originalLine);
    para := [];
    if StartsWith(line, "#") {
      var flushed := FlushParagraph(currentParagraph);
      var heading := ReadHeading(line);
      emitted, next := flushed + [heading], i + 1;
    } else if StartsWith(line, "* ") || StartsWith(line, "- ") {
      var flushed := FlushParagraph(currentParagraph);
      var bullet;
      bullet, next := ReadBullet(lines, i, Strip(line[2..]));
      emitted := flushed + [bullet];
    } else if LooksNumbered(line) {
      emitted, para, next := ReadNumbered(lines, i, currentParagraph, line);
    } else if '|' in line && i + 1 < |lines| && '|' in lines[i + 1] {
      var flushed := FlushParagraph(currentParagraph);
      StripKeeps(originalLine, '|');
      var table, last := ReadTable(lines, i);
      emitted, next := flushed + table, last + 1;
    } else if line == [] {
      var flushed := FlushParagraph(currentParagraph);
      emitted, next := flushed + [Spacer], i + 1;
    } else {
      emitted, para, next := [], currentParagraph + [line], i + 1;
    }
  }

  /** The outer loop of `md_to_pdf` over the lines of `mdText`, up to the
      list of flowables (rendering them is not modelled). */
  method MdToBlocks(mdText: string) returns (flowables: seq<Block>)
    ensures flowables == MdText(mdText)
  {
    var lines := SplitLines(mdText);
    var i := 0;
    var currentParagraph: seq<string> := [];
    flowables := [];
    while i < |lines|
      invariant i <= |lines|
      invariant flowables + ParseFrom(lines, i, currentParagraph) == Parse(lines)
      decreases |lines| - i
    {
      ghost var i0, para0 := i, currentParagraph;
      var emitted;
      emitted, currentParagraph, i := StepAt(lines, i, currentParagraph);
      ParseFromStep(lines, i0, para0, flowables, StepResult(emitted, currentParagraph, i));
      flowables := flowables + emitted;
    }
    var flushed := FlushParagraph(currentParagraph);
    flowables := flowables + flushed;
  }

  // ---------------------------------------------------------------------
  // Properties of the reader

  /** 1 while a paragraph is pending, else 0. */
  function Pending(para: seq<string>): nat
  {
    if para == [] then 0 else 1
  }

  /** An iteration appends at most one block per line it consumes, counting
      the paragraph it leaves pending and the one it flushes. */
  lemma StepBound(lines: seq<string>, i: nat, para: seq<string>)
    requires i < |lines|
    ensures var r := Step(lines, i, para);
            |r.emitted| + Pending(r.para) <= Pending(para) + (r.next - i)
  {
    var line := Strip(lines[i]);
    var r := Step(lines, i, para);
    var f := Flush(para);
    assert |f| == Pending(para);
    if StartsWith(line, "#") {
      assert r.emitted == f + [HeadingBlock(line)];
    } else if StartsWith(line, "* ") || StartsWith(line, "- ") {
      assert r.emitted == f + [BulletBlock(lines, i, Strip(line[2..]))];
    } else if LooksNumbered(line) {
      NumberedBound(lines, i, para, line);
    } else if OpensTable(lines, i, line) {
      assert r.emitted == f + TableBlocks(lines, i);
    } else if line == [] {
      assert r.emitted == f + [Spacer];
    } else {
      assert r.emitted == [];
    }
  }

  lemma NumberedBound(lines: seq<string>, i: nat, para: seq<string>, line: string)
    requires i < |lines| && '.' in line
    ensures var r := NumberedStep(lines, i, para, line);
            |r.emitted| + Pending(r.para) <= Pending(para) + (r.next - i)
  {
    assert |Flush(para)| == Pending(para);
  }

  lemma {:induction false} BlockCountFrom(lines: seq<string>, i: nat, para: seq<string>)
    requires i <= |lines|
    ensures |ParseFrom(lines, i, para)| <= |lines| - i + Pending(para)
    decreases |lines| - i
  {
    if i < |lines| {
      var r := Step(lines, i, para);
      StepBound(lines, i, para);
      BlockCountFrom(lines, r.next, r.para);
    }
  }

  /** There are never more blocks than lines. */
  lemma BlockCount(mdText: string)
    ensures |MdText(mdText)| <= |SplitLines(mdText)|
  {
    BlockCountFrom(SplitLines(mdText), 0, []);
  }

  /** The number of blank lines (empty once stripped) among `lines[a..b]`. */
  function BlankCount(lines: seq<string>, a: nat, b: nat): nat
    requires a <= b <= |lines|
    decreases b - a
  {
    if a == b then 0 else BlankCount(lines, a, b - 1) + if Strip(lines[b - 1]) == [] then 1 else 0
  }

  lemma {:induction false} BlankCountSplit(lines: seq<string>, a: nat, b: nat, c: nat)
    requires a <= b <= c <= |lines|
    ensures BlankCount(lines, a, c) == BlankCount(lines, a, b) + BlankCount(lines, b, c)
    decreases c - b
  {
    if b < c {
      BlankCountSplit(lines, a, b, c - 1);
    }
  }

  lemma {:induction false} NoBlankInRun(lines: seq<string>, a: nat, b: nat)
    requires a <= b <= |lines|
    requires forall k {:trigger Strip(lines[k])} :: a <= k < b ==> Strip(lines[k]) != []
    ensures BlankCount(lines, a, b) == 0
    decreases b - a
  {
    if a < b {
      NoBlankInRun(lines, a, b - 1);
    }
  }

  /** A line holding `|` is not blank. */
  lemma BarLineNotBlank(line: string)
    requires '|' in line
    ensures Strip(line) != []
  {
    var k :| 0 <= k < |line| && line[k] == '|';
    assert !IsSpace(line[k]);
    StripEmptyIff(line);
  }

  /** The lines an item absorbs are not blank. */
  lemma ItemRunNotBlank(lines: seq<string>, i: nat)
    requires i < |lines| && Strip(lines[i]) != []
    ensures BlankCount(lines, i, ContinuationEnd(lines, i + 1)) == 0
  {
    var e := ContinuationEnd(lines, i + 1);
    forall k | i <= k < e
      ensures Strip(lines[k]) != []
    {
      if k > i {
        assert Continues(lines[k]);
      }
    }
    NoBlankInRun(lines, i, e);
  }

  /** A table's lines are not blank. */
  lemma TableRunNotBlank(lines: seq<string>, i: nat)
    requires i <= |lines|
    ensures BlankCount(lines, i, TableEnd(lines, i)) == 0
  {
    forall k | i <= k < TableEnd(lines, i)
      ensures Strip(lines[k]) != []
    {
      BarLineNotBlank(lines[k]);
    }
    NoBlankInRun(lines, i, TableEnd(lines, i));
  }

  function SpacerCount(bs: seq<Block>): nat
  {
    multiset(bs)[Spacer]
  }

  /** An iteration emits a spacer exactly for a blank line: the inner loops
      never take a blank line in. */
  lemma StepSpacers(lines: seq<string>, i: nat, para: seq<string>)
    requires i < |lines|
    ensures var r := Step(lines, i, para); SpacerCount(r.emitted) == BlankCount(lines, i, r.next)
  {
    var line := Strip(lines[i]);
    var r := Step(lines, i, para);
    FlushIsParagraph(para);
    if StartsWith(line, "#") {
      assert BlankCount(lines, i, i + 1) == 0;
    } else if StartsWith(line, "* ") || StartsWith(line, "- ") {
      ItemRunNotBlank(lines, i);
    } else if LooksNumbered(line) {
      var d := FirstDot(line);
      if ParseInt(Strip(line[..d])).None? {
        assert BlankCount(lines, i, i + 1) == 0;
      } else {
        ItemRunNotBlank(lines, i);
      }
      assert SpacerCount(r.emitted) == BlankCount(lines, i, r.next);
    } else if OpensTable(lines, i, line) {
      TableRunNotBlank(lines, i);
      assert SpacerCount(TableBlocks(lines, i)) == 0;
    } else if line == [] {
      assert BlankCount(lines, i, i + 1) == 1;
    } else {
      assert BlankCount(lines, i, i + 1) == 0;
    }
  }

  lemma {:induction false} SpacersFrom(lines: seq<string>, i: nat, para: seq<string>)
    requires i <= |lines|
    ensures SpacerCount(ParseFrom(lines, i, para)) == BlankCount(lines, i, |lines|)
    decreases |lines| - i
  {
    if i == |lines| {
      FlushIsParagraph(para);
    } else {
      var r := Step(lines, i, para);
      StepSpacers(lines, i, para);
      SpacersFrom(lines, r.next, r.para);
      BlankCountSplit(lines, i, r.next, |lines|);
    }
  }

  /** Every blank line of the text becomes one spacer, and nothing else
      does. */
  lemma SpacerPerBlankLine(mdText: string)
    ensures var lines := SplitLines(mdText); SpacerCount(MdText(mdText)) == BlankCount(lines, 0, |lines|)
  {
    SpacersFrom(SplitLines(mdText), 0, []);
  }

  /** What every emitted block satisfies: a heading has at least one `#`; a
      table has a row, and every row a cell, each cell non-empty and
      stripped. */
  predicate WellFormedBlock(b: Block)
  {
    match b
    case Heading(level, _) => level >= 1
    case Table(rows) => rows != [] && WellFormedRows(rows)
    case _ => true
  }

  predicate AllWellFormed(bs: seq<Block>)
  {
    forall k :: 0 <= k < |bs| ==> WellFormedBlock(bs[k])
  }

  lemma AllWellFormedConcat(a: seq<Block>, b: seq<Block>)
    requires AllWellFormed(a) && AllWellFormed(b)
    ensures AllWellFormed(a + b)
  {
    forall k | 0 <= k < |a + b|
      ensures WellFormedBlock((a + b)[k])
    {
      if k >= |a| {
        assert (a + b)[k] == b[k - |a|];
      }
    }
  }

  lemma StepWellFormed(lines: seq<string>, i: nat, para: seq<string>)
    requires i < |lines|
    ensures AllWellFormed(Step(lines, i, para).emitted)
  {
    var line := Strip(lines[i]);
    FlushIsParagraph(para);
    if StartsWith(line, "#") {
      HeadingStepWellFormed(lines, i, para);
    } else if StartsWith(line, "* ") || StartsWith(line, "- ") {
      var b := BulletBlock(lines, i, Strip(line[2..]));
      AllWellFormedConcat(Flush(para), [b]);
    } else if LooksNumbered(line) {
      NumberedWellFormed(lines, i, para, line);
    } else if OpensTable(lines, i, line) {
      TableStepWellFormed(lines, i, para);
    } else if line == [] {
      AllWellFormedConcat(Flush(para), [Spacer]);
    }
  }

  lemma HeadingStepWellFormed(lines: seq<string>, i: nat, para: seq<string>)
    requires i < |lines| && StartsWith(Strip(lines[i]), "#")
    ensures AllWellFormed(Step(lines, i, para).emitted)
  {
    var line := Strip(lines[i]);
    FlushIsParagraph(para);
    HeadingLevelPositive(line);
    AllWellFormedConcat(Flush(para), [HeadingBlock(line)]);
  }

  lemma TableStepWellFormed(lines: seq<string>, i: nat, para: seq<string>)
    requires i < |lines|
    requires var line := Strip(lines[i]);
             && !StartsWith(line, "#") && !(StartsWith(line, "* ") || StartsWith(line, "- "))
             && !LooksNumbered(line) && OpensTable(lines, i, line)
    ensures AllWellFormed(Step(lines, i, para).emitted)
  {
    FlushIsParagraph(para);
    TablesWellFormed(lines, i);
    AllWellFormedConcat(Flush(para), TableBlocks(lines, i));
  }

  /** A flush emits a paragraph and nothing else. */
  lemma FlushIsParagraph(para: seq<string>)
    ensures AllWellFormed(Flush(para))
    ensures SpacerCount(Flush(para)) == 0
    ensures forall k :: 0 <= k < |Flush(para)| ==> Flush(para)[k].Paragraph?
  {
  }

  /** A table block has rows, and cells in every row. */
  lemma TablesWellFormed(lines: seq<string>, i: nat)
    requires i <= |lines|
    ensures AllWellFormed(TableBlocks(lines, i))
  {
  }

  lemma HeadingLevelPositive(line: string)
    requires StartsWith(line, "#")
    ensures HeadingBlock(line).level >= 1
  {
    assert line[0] == '#';
  }

  lemma NumberedWellFormed(lines: seq<string>, i: nat, para: seq<string>, line: string)
    requires i < |lines| && '.' in line
    ensures AllWellFormed(NumberedStep(lines, i, para, line).emitted)
  {
    var d := FirstDot(line);
    var num := ParseInt(Strip(line[..d]));
    NumberedStepCases(lines, i, para, line, d, num);
    FlushIsParagraph(para);
    if num.Some? {
      AllWellFormedConcat(Flush(para), [NumberedBlock(lines, i, num.value, Strip(line[d + 1..]))]);
    }
  }

  lemma {:induction false} WellFormedFrom(lines: seq<string>, i: nat, para: seq<string>)
    requires i <= |lines|
    ensures AllWellFormed(ParseFrom(lines, i, para))
    decreases |lines| - i
  {
    if i == |lines| {
      FlushIsParagraph(para);
    } else {
      var r := Step(lines, i, para);
      StepWellFormed(lines, i, para);
      WellFormedFrom(lines, r.next, r.para);
      AllWellFormedConcat(r.emitted, ParseFrom(lines, r.next, r.para));
    }
  }

  /** Every block of every text is well formed; in particular every heading
      gets one of the styles `Heading1` to `Heading6`. */
  lemma BlocksWellFormed(mdText: string)
    ensures AllWellFormed(MdText(mdText))
    ensures forall k :: 0 <= k < |MdText(mdText)| && MdText(mdText)[k].Heading? ==>
              1 <= HeadingStyleLevel(MdText(mdText)[k].level) <= 6
  {
    WellFormedFrom(SplitLines(mdText), 0, []);
  }

  /** The stripped lines `lines[i..]`. */
  function StrippedFrom(lines: seq<string>, i: nat): (ss: seq<string>)
    requires i <= |lines|
    ensures |ss| == |lines| - i
    ensures forall k :: 0 <= k < |ss| ==> ss[k] == Strip(lines[i + k])
  {
    seq(|lines| - i, k requires 0 <= k < |lines| - i => Strip(lines[i + k]))
  }

  lemma StrippedFromCons(lines: seq<string>, i: nat)
    requires i < |lines|
    ensures StrippedFrom(lines, i) == [Strip(lines[i])] + StrippedFrom(lines, i + 1)
  {
    var whole := StrippedFrom(lines, i);
    var rest := StrippedFrom(lines, i + 1);
    var head := Strip(lines[i]);
    assert |whole| == 1 + |rest|;
    forall k | 0 <= k < |whole|
      ensures whole[k] == ([head] + rest)[k]
    {
      if k > 0 {
        assert rest[k - 1] == Strip(lines[i + k]);
      }
    }
  }

  /** A run of plain lines (each one a line an item would absorb) all joins
      the pending paragraph, which the final flush emits as one block. */
  lemma {:induction false} PlainRunFrom(lines: seq<string>, i: nat, para: seq<string>)
    requires i <= |lines|
    requires forall k {:trigger Continues(lines[k])} :: i <= k < |lines| ==> Continues(lines[k])
    ensures ParseFrom(lines, i, para) == Flush(para + StrippedFrom(lines, i))
    decreases |lines| - i
  {
    if i == |lines| {
      assert para + StrippedFrom(lines, i) == para;
    } else {
      var line := Strip(lines[i]);
      assert Continues(lines[i]);
      assert Step(lines, i, para) == StepResult([], para + [line], i + 1);
      PlainRunFrom(lines, i + 1, para + [line]);
      StrippedFromCons(lines, i);
      SnocAssoc(para, line, StrippedFrom(lines, i + 1));
    }
  }

  /** Plain text forms a single paragraph: its stripped lines joined by
      spaces, with the bold markup applied. */
  lemma PlainTextIsOneParagraph(mdText: string)
    requires var lines := SplitLines(mdText); lines != [] && forall k {:trigger Continues(lines[k])} :: 0 <= k < |lines| ==> Continues(lines[k])
    ensures var lines := SplitLines(mdText);
            MdText(mdText) == [Paragraph(BoldMarkup(Join(StrippedFrom(lines, 0), " ")))]
  {
    var lines := SplitLines(mdText);
    PlainRunFrom(lines, 0, []);
    assert [] + StrippedFrom(lines, 0) == StrippedFrom(lines, 0);
  }

  lemma DigitStartNotMarker(s: string)
    requires s != [] && IsDigit(s[0])
    ensures !StartsWith(s, "#") && !StartsWith(s, "* ") && !StartsWith(s, "- ")
  {
    assert s[0] != '#' && s[0] != '*' && s[0] != '-';
  }

  /** A line that looks numbered but whose number does not parse ends up,
      alone, as a paragraph of the line as written, leading and trailing
      whitespace included, whereas a plain line is stripped first. */
  lemma NumberedFallbackKeepsRawLine(line: string)
    requires var s := Strip(line); LooksNumbered(s) && ParseInt(Strip(s[..FirstDot(s)])).None?
    ensures Parse([line]) == [Paragraph(BoldMarkup(line))]
  {
    var s := Strip(line);
    DigitStartNotMarker(s);
    assert Step([line], 0, []) == NumberedStep([line], 0, [], s);
    assert NumberedStep([line], 0, [], s) == StepResult([], [line], 1);
    assert Join([line], " ") == line;
    assert ParseFrom([line], 1, [line]) == Flush([line]);
  }

  lemma PlainLineStripped(line: string)
    requires Continues(line)
    ensures Parse([line]) == [Paragraph(BoldMarkup(Strip(line)))]
  {
    PlainRunFrom([line], 0, []);
    assert [] + StrippedFrom([line], 0) == [Strip(line)];
  }
}
