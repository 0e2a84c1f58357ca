# Hot-keys document generator

This is a Dafny model of `tools/generate_hotkeys.py` from zulip-terminal. The
tool turns the key-binding table into the Markdown file `docs/hotkeys.md`. The
model has three modules, one per part of the tool:

- `KeyFormat` (`keyformat.dfy`) models `various_key_combination`, the
  "Key Combination" cell of a row. Each key combination is split on
  whitespace, as Python's argument-less `str.split()` does. Each key becomes
  `<kbd>key</kbd>`. The keys of one combination are joined by `" + "` and the
  alternative combinations by `" / "`. This module is pure: functions plus
  lemmas. It also has a decoder, `ParseCell`, which reads a cell back into
  its key lists; decoding is proved to invert formatting.
- `Grouping` (`grouping.dfy`) models `read_help_categories`. The method
  `ReadHelpCategories` walks the binding table in order and appends
  `(help text, keys)` to the list of the binding's category. It is proved
  against `Bucket`, a filter over the table. A missing dictionary key reads as
  the empty list, as with Python's `defaultdict(list)`. `Lookup` is that
  read, the `categories[action]` of `tools/generate_hotkeys.py:33`: a plain
  definition, used by `ReadHelpCategories` and `GenerateHotkeysFile`.
- `HotkeysDoc` (`hotkeysdoc.dfy`) models the text `generate_hotkeys_file`
  writes. The method `GenerateHotkeysFile` collects every write into one
  string, through the same nested loops as the source. It is proved equal to
  the function `Document`. After the banner and the `# Hot Keys` heading,
  `Document` has one section per declared category, in declaration order.
  Each section is a `##` heading, the two table header rows, one row per
  bucket entry and a blank line.

The tool's inputs are parameters:

- the binding table is a sequence of `KeyBinding(helpText, keyCategory, keys)`
  records, in the table's iteration order;
- `HELP_CATEGORIES` is a sequence of `HelpCategory(id, title)` pairs, in
  declaration order;
- `SCRIPT_NAME` is a string.

## Model

| member | source | states |
|---|---|---|
| KeyFormat.Split | tools/generate_hotkeys.py:58 | Every field of the split is a non-empty run without whitespace, and the fields together hold exactly the combination's non-whitespace characters, in order. The four lemmas below it fix the split on every input. |
| KeyFormat.SplitEmpty | tools/generate_hotkeys.py:58 | A combination with no characters gives no key. |
| KeyFormat.SplitSkipsWhitespace | tools/generate_hotkeys.py:58 | A whitespace character in front adds no key and no empty key: the split is that of the rest. |
| KeyFormat.SplitEndsFieldAtWhitespace | tools/generate_hotkeys.py:58 | A key ends at the first whitespace after it, and the split carries on with the text after that whitespace. |
| KeyFormat.SplitKey | tools/generate_hotkeys.py:58 | A non-empty text without whitespace is exactly one key. |
| KeyFormat.Join | tools/generate_hotkeys.py:56-61 | Definition of Python's `sep.join`. Its properties are lemmas SplitJoin, JoinAppend, JoinInterleave and HotkeysDoc.JoinNoNewLine. |
| KeyFormat.SplitJoin | tools/generate_hotkeys.py:58 | Splitting keys that were joined by single spaces gives back exactly those keys. |
| KeyFormat.Kbd | tools/generate_hotkeys.py:58 | Definition of the `<kbd>key</kbd>` wrapping of one key. Its properties are lemmas UnwrapKbd and MarkersKbd. |
| KeyFormat.UnwrapKbd | tools/generate_hotkeys.py:58 | Unwrapping a wrapped key gives back that key, for every key. |
| KeyFormat.KbdAll | tools/generate_hotkeys.py:58 | Key `j` becomes `<kbd>` + key `j` + `</kbd>`, with one wrapped key per key, in order. |
| KeyFormat.ComboCell | tools/generate_hotkeys.py:58 | Definition of one combination's rendering. Its properties are lemmas ComboCellOfKeys and ChordCell. |
| KeyFormat.ComboCells | tools/generate_hotkeys.py:57-60 | Combination `i` gives formatted combination `i`, with one per combination, in list order. |
| KeyFormat.ComboCellOfKeys | tools/generate_hotkeys.py:58 | A combination made of given keys renders as those keys, each wrapped in `<kbd>`, joined by " + ". |
| KeyFormat.KeyCell | tools/generate_hotkeys.py:52-62 | Definition of `various_key_combination`. Its properties are lemmas EmptyKeyCell, SingleKeyCell, PaddedKeyCell, SingleComboCell, KeyCellAppend, MarkerCount, KeyCellTokens and DecodeKeyCell. |
| KeyFormat.EmptyKeyCell | tools/generate_hotkeys.py:56-61 | An empty list of combinations gives the empty cell. |
| KeyFormat.SingleKeyCell | tools/generate_hotkeys.py:56-61 | A single one-key combination renders as exactly `<kbd>k</kbd>`, with no " + " and no " / ". |
| KeyFormat.PaddedKeyCell | tools/generate_hotkeys.py:56-61 | One key with whitespace before and after it renders as that key alone, wrapped: the whitespace does not show. |
| KeyFormat.SingleComboCell | tools/generate_hotkeys.py:56-61 | A list holding one combination renders as that combination alone, with no " / ". |
| KeyFormat.KeyCellAppend | tools/generate_hotkeys.py:56-61 | Appending an alternative adds " / " and its formatted combination at the end, so alternatives keep list order. |
| KeyFormat.ChordCell | tools/generate_hotkeys.py:58 | The chord "a b" renders as `<kbd>a</kbd> + <kbd>b</kbd>`. |
| KeyFormat.TwoChordCell | tools/generate_hotkeys.py:56-61 | Two chords "a b" and "c d" render as `<kbd>a</kbd> + <kbd>b</kbd> / <kbd>c</kbd> + <kbd>d</kbd>`. |
| KeyFormat.MarkerCount | tools/generate_hotkeys.py:56-61 | The cell has exactly as many `<kbd>` markers as there are whitespace-separated keys across all combinations. |
| KeyFormat.Unwrap | tools/generate_hotkeys.py:58 | A token accepted as a wrapped key is exactly `<kbd>` + the key + `</kbd>`. |
| KeyFormat.DecodeKeyCell | tools/generate_hotkeys.py:56-62 | Reading the cell back gives, for every combination in order, the keys its split yields, so no key and no grouping is lost. |
| KeyFormat.KeyCellTokens | tools/generate_hotkeys.py:56-61 | When every combination holds a key, the cell is its wrapped keys and its "+" and "/" tokens, joined by single spaces. |
| Grouping.EntryOf | tools/generate_hotkeys.py:48 | Definition of the `(help text, keys)` pair one binding appends. Its properties are lemmas BindingInItsBucket and BucketEntryHasSource. |
| Grouping.Bucket | tools/generate_hotkeys.py:46-48 | Reference definition of a category's list; it holds at most one entry per binding. ReadHelpCategories is proved to build it. Its properties are lemmas BucketAppend, BucketEmptyIff, BindingInItsBucket, BucketKeepsTableOrder, BucketEntryHasSource and BucketSizesSum. |
| Grouping.ReadHelpCategories | tools/generate_hotkeys.py:42-49 | The dictionary's keys are exactly the categories the table uses. Every category's list is the help texts and keys of the bindings in that category, in table order. |
| Grouping.GroupStep | tools/generate_hotkeys.py:47-48 | Appending binding `i`'s entry to its category's list, after bindings 0 to i-1 were grouped, groups bindings 0 to i: the keys are the categories they name, and every category reads as its list. |
| Grouping.BucketAppend | tools/generate_hotkeys.py:47-48 | Grouping two tables one after the other gives each category the first table's entries followed by the second's. |
| Grouping.BucketEmptyIff | tools/generate_hotkeys.py:46-48 | A category's list is empty if and only if no binding names that category. |
| Grouping.BindingInItsBucket | tools/generate_hotkeys.py:47-48 | Each binding shows up in its own category's list, at the position given by the number of earlier bindings of that category. |
| Grouping.BucketKeepsTableOrder | tools/generate_hotkeys.py:47-48 | Of two bindings of the same category, the one earlier in the table comes earlier in the list. |
| Grouping.BucketEntryHasSource | tools/generate_hotkeys.py:47-48 | Entry `k` of a category's list is the entry of a binding of that category that has exactly `k` earlier bindings of the same category. Together with BindingInItsBucket, list positions match that category's bindings one to one. |
| Grouping.BucketSizesSum | tools/generate_hotkeys.py:46-49 | Over distinct category ids, the list sizes add up to the number of bindings in those categories. When the ids cover every binding's category, they add up to the table size, so nothing is dropped or duplicated. |
| HotkeysDoc.Banner | tools/generate_hotkeys.py:23-26 | Definition of the banner. Its properties are lemmas DocumentStartsWithBanner and BannerNewLines. |
| HotkeysDoc.SectionHead | tools/generate_hotkeys.py:28-32 | Definition of a category's heading and table header. Its properties are lemmas EmptyCategorySection and SectionNewLines. |
| HotkeysDoc.Row | tools/generate_hotkeys.py:37 | Definition of one entry's table row. Its property is lemma RowNewLines. |
| HotkeysDoc.Rows | tools/generate_hotkeys.py:33-37 | Definition of a list's rows, in list order. Its properties are lemmas RowsStep and RowsNewLines. |
| HotkeysDoc.Section | tools/generate_hotkeys.py:28-38 | Definition of one category's section. Its properties are lemmas EmptyCategorySection, SectionNewLines and BucketSectionNewLines. |
| HotkeysDoc.Sections | tools/generate_hotkeys.py:27-38 | Definition of the sections of the declared categories, in declaration order. Its properties are lemmas SectionsAppend, SectionOrder, SectionsConcat and SectionsNewLines. |
| HotkeysDoc.Document | tools/generate_hotkeys.py:21-38 | Definition of the whole text written. GenerateHotkeysFile is proved to write it. Its properties are lemmas DocumentStartsWithBanner, DocumentDependsOnlyOnBuckets, UndeclaredBindingIgnored and DocumentLineCount. |
| HotkeysDoc.GenerateHotkeysFile | tools/generate_hotkeys.py:17-38 | The text written is the banner followed, for each declared category in order, by its section built from its list. |
| HotkeysDoc.RowsStep | tools/generate_hotkeys.py:33-37 | Writing the row of entry `j` after the rows of entries 0 to j-1 gives the rows of entries 0 to j. |
| HotkeysDoc.SectionStep | tools/generate_hotkeys.py:27-38 | Writing category `i`'s heading, header rows, rows and blank line after the sections of categories 0 to i-1 gives the sections of categories 0 to i. |
| HotkeysDoc.DocumentStartsWithBanner | tools/generate_hotkeys.py:23-26 | The document begins with exactly the comment naming `tools/` + the script name, the "Do not modify" comment, a blank line and `# Hot Keys`. |
| HotkeysDoc.SectionsAppend | tools/generate_hotkeys.py:27-38 | The sections of two runs of categories, one after the other, are the sections of the first run followed by those of the second. |
| HotkeysDoc.SectionOrder | tools/generate_hotkeys.py:27-38 | Category `k`'s section comes right after the sections of categories 0 to k-1 and right before the rest. Declaration order fixes this, not order of first use in the table. |
| HotkeysDoc.EmptyCategorySection | tools/generate_hotkeys.py:28-38 | A category with no bindings still gets its heading, both header rows and the blank line, with no row between them. |
| HotkeysDoc.DocumentDependsOnlyOnBuckets | tools/generate_hotkeys.py:27-37 | Two tables that agree on the lists of the declared categories give the same document. |
| HotkeysDoc.UndeclaredBindingIgnored | tools/generate_hotkeys.py:27-33 | Removing a binding whose category is not declared leaves the document unchanged. Such a binding is grouped but never written. |
| HotkeysDoc.KeyCellOneLine | tools/generate_hotkeys.py:34-37 | A key cell holds no line break, whatever the combinations. |
| HotkeysDoc.RowsNewLines | tools/generate_hotkeys.py:33-37 | When no help text holds a line break, the rows of a list take exactly one line per entry. |
| HotkeysDoc.SectionNewLines | tools/generate_hotkeys.py:28-38 | A section takes four lines besides its rows: the heading, the two header rows and the blank line. |
| HotkeysDoc.BannerNewLines | tools/generate_hotkeys.py:23-26 | When the script name holds no line break, the banner is four lines. |
| HotkeysDoc.BucketSectionNewLines | tools/generate_hotkeys.py:28-38 | When the title and the help texts hold no line break, a category's section takes four lines plus one per entry of its list. |
| HotkeysDoc.SectionsConcat | tools/generate_hotkeys.py:27-38 | The sections are the per-category sections one after the other, in declaration order. |
| HotkeysDoc.SectionsNewLines | tools/generate_hotkeys.py:27-38 | The sections take four lines per declared category plus one line per entry of the declared categories' lists. |
| HotkeysDoc.DocumentLineCount | tools/generate_hotkeys.py:21-38 | Take distinct category ids that cover every binding, and texts without line breaks. Then the document has 4 + 4 × (number of categories) + (number of bindings) lines. |

## Left out

- Opening and writing `OUTPUT_FILE`, the closing `print` and the path resolution of `OUTPUT_FILE` and `SCRIPT_NAME` are file and console I/O. The document is returned as a string, and the script name is a parameter.
- `main` and the `__main__` guard are entry-point plumbing with no behaviour of their own.
- The contents of `KEY_BINDINGS` and `HELP_CATEGORIES` are parameters. `zulipterminal/config/keys.py` is not part of this model. The action names that key `KEY_BINDINGS` are dropped, because the tool only iterates over the values.
- Python's `dict` keeps `HELP_CATEGORIES` keys distinct. A sequence of pairs need not, so `Distinct` is required only where a lemma needs it.
- Style linting, duplicate-key linting and sync checking are not part of this tool.
- A binding whose category is not declared: the tool groups it and never writes it, and the model follows the code, as `HotkeysDoc.UndeclaredBindingIgnored` shows.
- The split uses the whitespace set of Python's argument-less `str.split()`. There is no Unicode normalisation, and strings are sequences of code points.
- `Grouping.Lookup`: reading `categories[action]` from a `defaultdict` also inserts an empty list under that key. The model's read has no side effect. After grouping, nothing reads the dictionary's keys, so the document is unaffected.
- `KeyFormat.MarkerCount` requires that no key itself contains the text `<kbd>`. Otherwise the marker count would also include those.
- `KeyFormat.DecodeKeyCell` requires at least one combination, and at least one key in each. An empty or all-whitespace combination renders as nothing, so it cannot be told apart when reading back.
- `HotkeysDoc.DocumentLineCount` requires no line break in the script name, the titles or the help texts, that the declared category ids are distinct (`Distinct(Ids(cats))`), and that they cover every binding. These are what the total depends on: a repeated id would write that category's list twice. `HotkeysDoc.SectionsNewLines` states the count without the cover requirement.
