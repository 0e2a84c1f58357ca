/**
  The hot-keys document: a fixed banner and top-level heading, then one
  section per help category, in the order the categories are declared.
  Each section is a level-2 heading with the category's title, a two-column
  table header, one row per entry of the category's bucket and a blank line.
 */
module HotkeysDoc {
  import opened KeyFormat
  import opened Grouping

  /** One declared help category: its identifier and its display title. */
  datatype HelpCategory = HelpCategory(id: string, title: string)

  /** The two banner lines, the blank line and the top-level heading. */
  function Banner(scriptName: string): string {
    CommentOpen + scriptName + CommentClose + NoticeLine + "\n" + HeadingLine
  }

  const CommentOpen: string := "<!--- Generated automatically by tools/"
  const CommentClose: string := " -->" + "\n"
  const NoticeLine: string := "<!--- Do not modify -->" + "\n"
  const HeadingLine: string := "# Hot Keys" + "\n"

  /** The two header rows of every category's table. */
  const ColumnsRow: string := "|Command|Key Combination|" + "\n"
  const AlignmentRow: string := "| :--- | :---: |" + "\n"

  /** A category's level-2 heading and its table header. */
  function SectionHead(title: string): string {
    "## " + title + "\n" + ColumnsRow + AlignmentRow
  }

  /** The table row of one entry: the help text and the key cell. */
  function Row(e: Entry): string {
    "|" + e.helpText + "|" + KeyCell(e.keys) + "|\n"
  }

  /** The rows of a bucket, in bucket order. */
  function Rows(entries: seq<Entry>): string {
    if entries == [] then ""
    else Rows(entries[..|entries| - 1]) + Row(entries[|entries| - 1])
  }

  function Section(title: string, entries: seq<Entry>): string {
    SectionHead(title) + Rows(entries) + "\n"
  }

  /** The sections of the categories `cats`, in declaration order, each showing its bucket. */
  function Sections(cats: seq<HelpCategory>, bindings: seq<KeyBinding>): string {
    if cats == [] then ""
    else
      var last := cats[|cats| - 1];
      Sections(cats[..|cats| - 1], bindings) + Section(last.title, Bucket(bindings, last.id))
  }

  /** The whole document the generator writes. */
  function Document(scriptName: string, cats: seq<HelpCategory>, bindings: seq<KeyBinding>): string {
    Banner(scriptName) + Sections(cats, bindings)
  }

  /**
    Groups the table, then writes the banner and, for each declared
    category, its heading, its table header, one row per entry of its list
    and a blank line, collecting everything written into `doc`.
   */
  method GenerateHotkeysFile(scriptName: string, helpCategories: seq<HelpCategory>, keyBindings: seq<KeyBinding>)
    returns (doc: string)
    ensures doc == Document(scriptName, helpCategories, keyBindings)
  {
    var categories := ReadHelpCategories(keyBindings);
    doc := CommentOpen + scriptName + CommentClose + NoticeLine + "\n" + HeadingLine;
    for i := 0 to |helpCategories|
      invariant doc == Banner(scriptName) + Sections(helpCategories[..i], keyBindings)
    {
      var action := helpCategories[i];
      doc := doc + ("## " + action.title + "\n" + ColumnsRow + AlignmentRow);
      ghost var head := doc;
      var bucket := Lookup(categories, action.id);
      for j := 0 to |bucket|
        invariant doc == head + Rows(bucket[..j])
      {
        var variousKeyCombinations := KeyCell(bucket[j].keys);
        doc := doc + ("|" + bucket[j].helpText + "|" + variousKeyCombinations + "|\n");
        RowsStep(head, bucket, j);
      }
      doc := doc + "\n";
      SectionStep(Banner(scriptName), helpCategories, keyBindings, i);
    }
    assert helpCategories[..|helpCategories|] == helpCategories;
  }

  /** Writing the row of entry `j` extends the rows of the entries before it. */
  lemma RowsStep(head: string, bucket: seq<Entry>, j: nat)
    requires j < |bucket|
    ensures head + Rows(bucket[..j]) + ("|" + bucket[j].helpText + "|" + KeyCell(bucket[j].keys) + "|\n")
         == head + Rows(bucket[..j + 1])
  {
    assert bucket[..j + 1][..j] == bucket[..j];
    assert Rows(bucket[..j + 1]) == Rows(bucket[..j]) + Row(bucket[j]);
    Assoc3(head, Rows(bucket[..j]), Row(bucket[j]));
  }

  /** Writing the heading, header, rows and blank line of category `i` extends the sections before it. */
  lemma SectionStep(banner: string, cats: seq<HelpCategory>, bindings: seq<KeyBinding>, i: nat)
    requires i < |cats|
    ensures var bucket := Bucket(bindings, cats[i].id);
            var head := banner + Sections(cats[..i], bindings) + ("## " + cats[i].title + "\n" + ColumnsRow + AlignmentRow);
            head + Rows(bucket[..|bucket|]) + "\n" == banner + Sections(cats[..i + 1], bindings)
  {
    var bucket := Bucket(bindings, cats[i].id);
    var before := banner + Sections(cats[..i], bindings);
    assert bucket[..|bucket|] == bucket;
    Assoc4(before, SectionHead(cats[i].title), Rows(bucket), "\n");
    Assoc3(SectionHead(cats[i].title), Rows(bucket), "\n");
    Assoc3(banner, Sections(cats[..i], bindings), Section(cats[i].title, bucket));
    assert cats[..i + 1][..i] == cats[..i];
    assert Sections(cats[..i + 1], bindings) == Sections(cats[..i], bindings) + Section(cats[i].title, bucket);
  }

  // ---------------------------------------------------------------------
  // Layout of the document

  /** The document opens with exactly the banner and the top-level heading. */
  lemma DocumentStartsWithBanner(scriptName: string, cats: seq<HelpCategory>, bindings: seq<KeyBinding>)
    ensures var doc := Document(scriptName, cats, bindings);
            var banner := "<!--- Generated automatically by tools/" + scriptName + " -->\n"
                          + "<!--- Do not modify -->\n" + "\n" + "# Hot Keys\n";
            |banner| <= |doc| && doc[..|banner|] == banner
  {
    var banner := Banner(scriptName);
    assert banner == "<!--- Generated automatically by tools/" + scriptName + " -->\n"
                     + "<!--- Do not modify -->\n" + "\n" + "# Hot Keys\n";
    var doc := Document(scriptName, cats, bindings);
    assert doc == banner + Sections(cats, bindings);
    assert doc[..|banner|] == banner;
  }

  lemma {:induction false} SectionsAppend(a: seq<HelpCategory>, b: seq<HelpCategory>, bindings: seq<KeyBinding>)
    ensures Sections(a + b, bindings) == Sections(a, bindings) + Sections(b, bindings)
    decreases |b|
  {
    if b == [] {
      assert a + b == a;
    } else {
      var init := b[..|b| - 1];
      var last := b[|b| - 1];
      var s := Section(last.title, Bucket(bindings, last.id));
      assert (a + b)[..|a + b| - 1] == a + init;
      assert (a + b)[|a + b| - 1] == last;
      assert Sections(a + b, bindings) == Sections(a + init, bindings) + s;
      assert Sections(b, bindings) == Sections(init, bindings) + s;
      SectionsAppend(a, init, bindings);
      Assoc3(Sections(a, bindings), Sections(init, bindings), s);
    }
  }

  /**
    Sections follow the declaration order of the categories: the section of
    category `k` comes right after those of categories `0 .. k-1` and right
    before those of the categories after it, whatever the order of the table.
   */
  lemma SectionOrder(scriptName: string, cats: seq<HelpCategory>, bindings: seq<KeyBinding>, k: nat)
    requires k < |cats|
    ensures Document(scriptName, cats, bindings)
         == Banner(scriptName) + Sections(cats[..k], bindings)
            + Section(cats[k].title, Bucket(bindings, cats[k].id))
            + Sections(cats[k + 1..], bindings)
  {
    assert cats == cats[..k] + ([cats[k]] + cats[k + 1..]);
    SectionsAppend(cats[..k], [cats[k]] + cats[k + 1..], bindings);
    SectionsAppend([cats[k]], cats[k + 1..], bindings);
    var section := Section(cats[k].title, Bucket(bindings, cats[k].id));
    assert Sections([cats[k]], bindings) == section by {
      assert [cats[k]][..0] == [];
    }
    var pre := Sections(cats[..k], bindings);
    var post := Sections(cats[k + 1..], bindings);
    assert Sections(cats, bindings) == pre + (section + post);
    Assoc4(Banner(scriptName), pre, section, post);
  }

  lemma Assoc3(a: string, b: string, c: string)
    ensures a + (b + c) == a + b + c
  {
  }

  lemma Assoc4(a: string, b: string, c: string, d: string)
    ensures a + (b + (c + d)) == a + b + c + d
  {
  }

  /** A category without bindings still gets its heading and table header, and no row. */
  lemma EmptyCategorySection(title: string)
    ensures Section(title, [])
         == "## " + title + "\n" + "|Command|Key Combination|\n" + "| :--- | :---: |\n" + "\n"
  {
  }

  /**
    The document depends on the table only through the buckets of the
    declared categories: two tables that agree on those buckets give the
    same document, however their bindings are interleaved or whatever
    undeclared categories they also use.
   */
  lemma {:induction false} DocumentDependsOnlyOnBuckets(scriptName: string, cats: seq<HelpCategory>,
                                                        a: seq<KeyBinding>, b: seq<KeyBinding>)
    requires forall k :: 0 <= k < |cats| ==> Bucket(a, cats[k].id) == Bucket(b, cats[k].id)
    ensures Document(scriptName, cats, a) == Document(scriptName, cats, b)
    decreases |cats|
  {
    SectionsAgree(cats, a, b);
  }

  lemma {:induction false} SectionsAgree(cats: seq<HelpCategory>, a: seq<KeyBinding>, b: seq<KeyBinding>)
    requires forall k :: 0 <= k < |cats| ==> Bucket(a, cats[k].id) == Bucket(b, cats[k].id)
    ensures Sections(cats, a) == Sections(cats, b)
    decreases |cats|
  {
    if cats != [] {
      var init := cats[..|cats| - 1];
      assert forall k :: 0 <= k < |init| ==> init[k] == cats[k];
      SectionsAgree(init, a, b);
      assert Bucket(a, cats[|cats| - 1].id) == Bucket(b, cats[|cats| - 1].id);
    }
  }

  /** A binding whose category is not declared is grouped but written nowhere. */
  lemma UndeclaredBindingIgnored(scriptName: string, cats: seq<HelpCategory>, bindings: seq<KeyBinding>, i: nat)
    requires i < |bindings|
    requires forall k :: 0 <= k < |cats| ==> cats[k].id != bindings[i].keyCategory
    ensures Document(scriptName, cats, bindings[..i] + bindings[i + 1..]) == Document(scriptName, cats, bindings)
  {
    var without := bindings[..i] + bindings[i + 1..];
    assert bindings == bindings[..i] + ([bindings[i]] + bindings[i + 1..]);
    forall k | 0 <= k < |cats| ensures Bucket(without, cats[k].id) == Bucket(bindings, cats[k].id) {
      var c := cats[k].id;
      BucketAppend(bindings[..i], bindings[i + 1..], c);
      BucketAppend(bindings[..i], [bindings[i]] + bindings[i + 1..], c);
      BucketAppend([bindings[i]], bindings[i + 1..], c);
      assert [bindings[i]][1..] == [];
      assert Bucket([bindings[i]], c) == [];
    }
    DocumentDependsOnlyOnBuckets(scriptName, cats, without, bindings);
  }

  // ---------------------------------------------------------------------
  // Counting lines

  /** The number of line breaks in `s`. */
  function NewLines(s: string): nat {
    if s == [] then 0
    else NewLines(s[..|s| - 1]) + (if s[|s| - 1] == '\n' then 1 else 0)
  }

  function Ids(cats: seq<HelpCategory>): (r: seq<string>)
    ensures |r| == |cats|
    ensures forall k :: 0 <= k < |cats| ==> r[k] == cats[k].id
  {
    if cats == [] then [] else Ids(cats[..|cats| - 1]) + [cats[|cats| - 1].id]
  }

  lemma {:induction false} JoinNoNewLine(parts: seq<string>, sep: string)
    requires forall i :: 0 <= i < |parts| ==> '\n' !in parts[i]
    requires '\n' !in sep
    ensures '\n' !in Join(parts, sep)
    decreases |parts|
  {
    if |parts| > 1 {
      JoinNoNewLine(parts[1..], sep);
    }
  }

  /** A key cell never breaks the line: keys hold no whitespace and the markup holds no line break. */
  lemma KeyCellOneLine(combinations: seq<string>)
    ensures '\n' !in KeyCell(combinations)
  {
    var cells := ComboCells(combinations);
    forall i | 0 <= i < |cells| ensures '\n' !in cells[i] {
      var keys := Split(combinations[i]);
      var marked := KbdAll(keys);
      forall j | 0 <= j < |marked| ensures '\n' !in marked[j] {
        assert IsKey(keys[j]);
        assert marked[j] == "<kbd>" + keys[j] + "</kbd>";
      }
      JoinNoNewLine(marked, " + ");
    }
    JoinNoNewLine(cells, " / ");
  }

  lemma {:induction false} RowsNewLines(entries: seq<Entry>)
    requires forall k :: 0 <= k < |entries| ==> '\n' !in entries[k].helpText
    ensures NewLines(Rows(entries)) == |entries|
    decreases |entries|
  {
    if entries != [] {
      var last := entries[|entries| - 1];
      var init := entries[..|entries| - 1];
      assert forall k :: 0 <= k < |init| ==> init[k] == entries[k];
      RowsNewLines(init);
      RowNewLines(last);
      NewLinesAppend(Rows(init), Row(last));
    }
  }

  /** Every bucket entry's help text is a binding's help text. */
  lemma BucketHelpTexts(bindings: seq<KeyBinding>, c: string)
    requires forall i :: 0 <= i < |bindings| ==> '\n' !in bindings[i].helpText
    ensures forall k :: 0 <= k < |Bucket(bindings, c)| ==> '\n' !in Bucket(bindings, c)[k].helpText
  {
    forall k | 0 <= k < |Bucket(bindings, c)| ensures '\n' !in Bucket(bindings, c)[k].helpText {
      BucketEntryHasSource(bindings, c, k);
    }
  }

  lemma {:induction false} NewLinesAppend(a: string, b: string)
    ensures NewLines(a + b) == NewLines(a) + NewLines(b)
    decreases |b|
  {
    if b == [] {
      assert a + b == a;
    } else {
      NewLinesAppend(a, b[..|b| - 1]);
      assert (a + b)[..|a + b| - 1] == a + b[..|b| - 1];
    }
  }

  /** One line: text without a line break, then the line break. */
  lemma LineNewLines(text: string)
    requires '\n' !in text
    ensures NewLines(text + "\n") == 1
  {
    NoNewLine(text);
    NewLinesAppend(text, "\n");
  }

  lemma HeaderRowsNewLines()
    ensures NewLines(ColumnsRow) == 1 && NewLines(AlignmentRow) == 1
  {
    ColumnsRowNewLines();
    AlignmentRowNewLines();
  }

  lemma ColumnsRowNewLines()
    ensures NewLines(ColumnsRow) == 1
  {
    LineNewLines("|Command|Key Combination|");
  }

  lemma AlignmentRowNewLines()
    ensures NewLines(AlignmentRow) == 1
  {
    LineNewLines("| :--- | :---: |");
  }

  lemma SectionNewLines(title: string, entries: seq<Entry>)
    requires '\n' !in title
    ensures NewLines(Section(title, entries)) == 4 + NewLines(Rows(entries))
  {
    var heading := "## " + title + "\n";
    LineNewLines("## " + title);
    HeaderRowsNewLines();
    NewLinesAppend(heading, ColumnsRow);
    NewLinesAppend(heading + ColumnsRow, AlignmentRow);
    var rows := Rows(entries);
    NewLinesAppend(SectionHead(title), rows);
    NewLinesAppend(SectionHead(title) + rows, "\n");
  }

  lemma RowNewLines(e: Entry)
    requires '\n' !in e.helpText
    ensures NewLines(Row(e)) == 1
  {
    var cell := KeyCell(e.keys);
    KeyCellOneLine(e.keys);
    NoNewLine(e.helpText);
    NoNewLine(cell);
    NewLinesAppend("|", e.helpText);
    NewLinesAppend("|" + e.helpText, "|");
    NewLinesAppend("|" + e.helpText + "|", cell);
    NewLinesAppend("|" + e.helpText + "|" + cell, "|\n");
    NoNewLine("|");
    LineNewLines("|");
    assert "|" + "\n" == "|\n";
  }

  lemma {:induction false} SectionsNewLines(cats: seq<HelpCategory>, bindings: seq<KeyBinding>)
    requires forall k :: 0 <= k < |cats| ==> '\n' !in cats[k].title
    requires forall i :: 0 <= i < |bindings| ==> '\n' !in bindings[i].helpText
    ensures NewLines(Sections(cats, bindings)) == 4 * |cats| + BucketSizes(bindings, Ids(cats))
  {
    var texts := SectionTexts(cats, bindings);
    var counts := SectionCounts(cats, bindings);
    forall k | 0 <= k < |cats| ensures NewLines(texts[k]) == counts[k] {
      BucketSectionNewLines(cats[k].title, bindings, cats[k].id);
    }
    SectionsConcat(cats, bindings);
    ConcatNewLines(texts, counts);
    SectionCountsTotal(cats, bindings);
  }

  /** The section of each category of `cats`, one string per category. */
  function SectionTexts(cats: seq<HelpCategory>, bindings: seq<KeyBinding>): seq<string> {
    seq(|cats|, k requires 0 <= k < |cats| => Section(cats[k].title, Bucket(bindings, cats[k].id)))
  }

  /** The line count of each category's section: four, plus one per bucket entry. */
  function SectionCounts(cats: seq<HelpCategory>, bindings: seq<KeyBinding>): seq<nat> {
    seq(|cats|, k requires 0 <= k < |cats| => 4 + |Bucket(bindings, cats[k].id)|)
  }

  /** The strings of `parts`, one after the other. */
  function Concat(parts: seq<string>): string {
    if parts == [] then "" else Concat(parts[..|parts| - 1]) + parts[|parts| - 1]
  }

  function Total(counts: seq<nat>): nat {
    if counts == [] then 0 else Total(counts[..|counts| - 1]) + counts[|counts| - 1]
  }

  /** Line counts add up over a concatenation. */
  lemma {:induction false} ConcatNewLines(parts: seq<string>, counts: seq<nat>)
    requires |counts| == |parts|
    requires forall k :: 0 <= k < |parts| ==> NewLines(parts[k]) == counts[k]
    ensures NewLines(Concat(parts)) == Total(counts)
    decreases |parts|
  {
    if parts != [] {
      var n := |parts| - 1;
      ConcatNewLines(parts[..n], counts[..n]);
      NewLinesAppend(Concat(parts[..n]), parts[n]);
    }
  }

  /** The sections are the concatenation of the per-category sections. */
  lemma {:induction false} SectionsConcat(cats: seq<HelpCategory>, bindings: seq<KeyBinding>)
    ensures Sections(cats, bindings) == Concat(SectionTexts(cats, bindings))
    decreases |cats|
  {
    if cats != [] {
      var n := |cats| - 1;
      SectionsConcat(cats[..n], bindings);
      assert SectionTexts(cats, bindings)[..n] == SectionTexts(cats[..n], bindings);
    }
  }

  lemma {:induction false} SectionCountsTotal(cats: seq<HelpCategory>, bindings: seq<KeyBinding>)
    ensures Total(SectionCounts(cats, bindings)) == 4 * |cats| + BucketSizes(bindings, Ids(cats))
    decreases |cats|
  {
    if cats == [] {
      assert Ids(cats) == [];
    } else {
      var n := |cats| - 1;
      SectionCountsTotal(cats[..n], bindings);
      assert SectionCounts(cats, bindings)[..n] == SectionCounts(cats[..n], bindings);
      BucketSizesSnoc(cats, bindings);
    }
  }

  /** The banner is four lines: two comments, a blank line and the heading. */
  lemma BannerNewLines(scriptName: string)
    requires '\n' !in scriptName
    ensures NewLines(Banner(scriptName)) == 4
  {
    CommentNewLines();
    NoNewLine(scriptName);
    NewLinesAppend(CommentOpen, scriptName);
    NewLinesAppend(CommentOpen + scriptName, CommentClose);
    NewLinesAppend(CommentOpen + scriptName + CommentClose, NoticeLine);
    NewLinesAppend(CommentOpen + scriptName + CommentClose + NoticeLine, "\n");
    NewLinesAppend(CommentOpen + scriptName + CommentClose + NoticeLine + "\n", HeadingLine);
  }

  lemma CommentNewLines()
    ensures NewLines(CommentOpen) == 0 && NewLines(CommentClose) == 1
    ensures NewLines(NoticeLine) == 1 && NewLines(HeadingLine) == 1
  {
    CommentOpenNewLines();
    CommentCloseNewLines();
    NoticeLineNewLines();
    HeadingLineNewLines();
  }

  lemma CommentOpenNewLines()
    ensures NewLines(CommentOpen) == 0
  {
    NoNewLine("<!--- Generated automatically by tools/");
  }

  lemma CommentCloseNewLines()
    ensures NewLines(CommentClose) == 1
  {
    LineNewLines(" -->");
  }

  lemma NoticeLineNewLines()
    ensures NewLines(NoticeLine) == 1
  {
    LineNewLines("<!--- Do not modify -->");
  }

  lemma HeadingLineNewLines()
    ensures NewLines(HeadingLine) == 1
  {
    LineNewLines("# Hot Keys");
  }

  lemma {:induction false} NoNewLine(text: string)
    requires '\n' !in text
    ensures NewLines(text) == 0
    decreases |text|
  {
    if text != [] {
      NoNewLine(text[..|text| - 1]);
    }
  }

  /** The section of category `c` has four lines besides one per entry of its bucket. */
  lemma BucketSectionNewLines(title: string, bindings: seq<KeyBinding>, c: string)
    requires '\n' !in title
    requires forall i :: 0 <= i < |bindings| ==> '\n' !in bindings[i].helpText
    ensures NewLines(Section(title, Bucket(bindings, c))) == 4 + |Bucket(bindings, c)|
  {
    BucketHelpTexts(bindings, c);
    RowsNewLines(Bucket(bindings, c));
    SectionNewLines(title, Bucket(bindings, c));
  }

  lemma BucketSizesSnoc(cats: seq<HelpCategory>, bindings: seq<KeyBinding>)
    requires cats != []
    ensures BucketSizes(bindings, Ids(cats))
         == BucketSizes(bindings, Ids(cats[..|cats| - 1])) + |Bucket(bindings, cats[|cats| - 1].id)|
  {
    assert Ids(cats)[..|cats| - 1] == Ids(cats[..|cats| - 1]);
    assert Ids(cats)[|cats| - 1] == cats[|cats| - 1].id;
  }

  /**
    Every declared category takes four lines besides its rows, and every
    binding takes exactly one row: with distinct category identifiers that
    cover every binding, and no line break inside the script name, a title or
    a help text, the document has 4 + 4 * |categories| + |bindings| lines.
   */
  lemma DocumentLineCount(scriptName: string, cats: seq<HelpCategory>, bindings: seq<KeyBinding>)
    requires '\n' !in scriptName
    requires forall k :: 0 <= k < |cats| ==> '\n' !in cats[k].title
    requires forall i :: 0 <= i < |bindings| ==> '\n' !in bindings[i].helpText
    requires Distinct(Ids(cats)) && Covers(Ids(cats), bindings)
    ensures NewLines(Document(scriptName, cats, bindings)) == 4 + 4 * |cats| + |bindings|
  {
    SectionsNewLines(cats, bindings);
    BucketSizesSum(bindings, Ids(cats));
    BannerNewLines(scriptName);
    NewLinesAppend(Banner(scriptName), Sections(cats, bindings));
  }
}
