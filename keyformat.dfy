/**
  The "Key Combination" cell of the hot-keys table.

  A binding carries a list of alternative key combinations; each combination
  is a whitespace-separated chord such as "ctrl c" or "g n".  The cell shows
  every key of a chord as `<kbd>key</kbd>`, the keys of one chord joined by
  " + " and the alternatives joined by " / ".
 */
module KeyFormat {

  datatype Option<T> = None | Some(value: T)

  /** The characters Python's argument-less `str.split()` treats as whitespace. */
  predicate IsWhitespace(ch: char) {
    || ('\t' <= ch <= '\r')
    || ('\U{1C}' <= ch <= ' ')
    || ch == '\U{85}' || ch == '\U{A0}' || ch == '\U{1680}'
    || ('\U{2000}' <= ch <= '\U{200A}')
    || ch == '\U{2028}' || ch == '\U{2029}' || ch == '\U{202F}'
    || ch == '\U{205F}' || ch == '\U{3000}'
  }

  predicate NoWhitespace(s: string) {
    forall i :: 0 <= i < |s| ==> !IsWhitespace(s[i])
  }

  /** A single key: what one field of a split combination can be. */
  predicate IsKey(w: string) {
    w != [] && NoWhitespace(w)
  }

  predicate AllKeys(ws: seq<string>) {
    forall j :: 0 <= j < |ws| ==> IsKey(ws[j])
  }

  /** `s` with every whitespace character deleted. */
  function RemoveWhitespace(s: string): string {
    if s == [] then []
    else (if IsWhitespace(s[0]) then [] else [s[0]]) + RemoveWhitespace(s[1..])
  }

  /** The concatenation of all the words, with nothing between them. */
  function Flatten(ws: seq<string>): string {
    if ws == [] then [] else ws[0] + Flatten(ws[1..])
  }

  /** Python's `sep.join(parts)`. */
  function Join(parts: seq<string>, sep: string): string {
    if parts == [] then []
    else if |parts| == 1 then parts[0]
    else parts[0] + sep + Join(parts[1..], sep)
  }

  /**
    Splitting `s` when the characters `word` have already been read as the
    start of the current field.
   */
  function SplitFrom(s: string, word: string): (r: seq<string>)
    requires NoWhitespace(word)
    ensures AllKeys(r)
    ensures Flatten(r) == word + RemoveWhitespace(s)
    decreases |s|
  {
    if s == [] then
      (if word == [] then [] else [word])
    else if IsWhitespace(s[0]) then
      if word == [] then SplitFrom(s[1..], [])
      else
        var rest := SplitFrom(s[1..], []);
        assert Flatten([word] + rest) == word + Flatten(rest) by {
          assert ([word] + rest)[1..] == rest;
        }
        [word] + rest
    else
      var r := SplitFrom(s[1..], word + [s[0]]);
      assert word + [s[0]] + RemoveWhitespace(s[1..]) == word + RemoveWhitespace(s);
      r
  }

  /**
    Python's `s.split()`: the maximal runs of non-whitespace characters of
    `s`, in order.  No field is empty and none holds whitespace, and together
    they hold exactly the non-whitespace characters of `s`.
   */
  function Split(s: string): (r: seq<string>)
    ensures AllKeys(r)
    ensures Flatten(r) == RemoveWhitespace(s)
  {
    SplitFrom(s, [])
  }

  /** Reading a whitespace-free stretch only extends the current field. */
  lemma {:induction false} SplitFromWord(w: string, rest: string, word: string)
    requires NoWhitespace(word) && NoWhitespace(w)
    ensures NoWhitespace(word + w)
    ensures SplitFrom(w + rest, word) == SplitFrom(rest, word + w)
    decreases |w|
  {
    if w == [] {
      assert w + rest == rest;
      assert word + w == word;
    } else {
      assert (w + rest)[0] == w[0];
      assert (w + rest)[1..] == w[1..] + rest;
      assert NoWhitespace(word + [w[0]]);
      SplitFromWord(w[1..], rest, word + [w[0]]);
      assert word + [w[0]] + w[1..] == word + w;
    }
  }

  /**
    The four equations below fix `Split` on every input, the way Python's
    argument-less `split()` behaves: nothing gives no field, leading
    whitespace is skipped, a field ends at the first whitespace after it, and
    a whitespace-free text is one field.
   */
  lemma SplitEmpty()
    ensures Split([]) == []
  {
  }

  lemma SplitSkipsWhitespace(ch: char, s: string)
    requires IsWhitespace(ch)
    ensures Split([ch] + s) == Split(s)
  {
    assert ([ch] + s)[0] == ch;
    assert ([ch] + s)[1..] == s;
  }

  lemma SplitEndsFieldAtWhitespace(k: string, ch: char, s: string)
    requires IsKey(k) && IsWhitespace(ch)
    ensures Split(k + [ch] + s) == [k] + Split(s)
  {
    var rest := [ch] + s;
    assert k + [ch] + s == k + rest;
    SplitFromWord(k, rest, []);
    assert [] + k == k;
    assert rest[0] == ch;
    assert rest[1..] == s;
  }

  lemma SplitKey(k: string)
    requires IsKey(k)
    ensures Split(k) == [k]
  {
    SplitFromWord(k, [], []);
    assert k + [] == k;
    assert [] + k == k;
  }

  /** Splitting undoes joining keys with single spaces. */
  lemma {:induction false} SplitJoin(ws: seq<string>)
    requires AllKeys(ws)
    ensures Split(Join(ws, " ")) == ws
    decreases |ws|
  {
    if ws == [] {
    } else if |ws| == 1 {
      SplitFromWord(ws[0], [], []);
      assert ws[0] + [] == ws[0];
      assert [] + ws[0] == ws[0];
    } else {
      var tail := Join(ws[1..], " ");
      assert Join(ws, " ") == ws[0] + (" " + tail);
      SplitFromWord(ws[0], " " + tail, []);
      assert [] + ws[0] == ws[0];
      assert (" " + tail)[0] == ' ';
      assert (" " + tail)[1..] == tail;
      SplitJoin(ws[1..]);
      assert ws == [ws[0]] + ws[1..];
    }
  }

  /** One key wrapped as a keyboard-key marker. */
  function Kbd(key: string): string {
    "<kbd>" + key + "</kbd>"
  }

  function KbdAll(keys: seq<string>): (r: seq<string>)
    ensures |r| == |keys|
    ensures forall j :: 0 <= j < |keys| ==> r[j] == Kbd(keys[j])
  {
    if keys == [] then [] else [Kbd(keys[0])] + KbdAll(keys[1..])
  }

  /** The rendering of one key combination: its keys, marked, joined by " + ". */
  function ComboCell(combination: string): string {
    Join(KbdAll(Split(combination)), " + ")
  }

  function ComboCells(combinations: seq<string>): (r: seq<string>)
    ensures |r| == |combinations|
    ensures forall i :: 0 <= i < |combinations| ==> r[i] == ComboCell(combinations[i])
  {
    if combinations == [] then []
    else [ComboCell(combinations[0])] + ComboCells(combinations[1..])
  }

  /** The key cell of one binding: its combinations' renderings joined by " / ". */
  function KeyCell(combinations: seq<string>): string {
    Join(ComboCells(combinations), " / ")
  }

  // ---------------------------------------------------------------------
  // The shape of a cell

  /** An empty combination list gives an empty cell. */
  lemma EmptyKeyCell()
    ensures KeyCell([]) == ""
  {
  }

  /** A single key renders as exactly one marked key, with no separator. */
  lemma {:induction false} SingleKeyCell(key: string)
    requires IsKey(key)
    ensures KeyCell([key]) == "<kbd>" + key + "</kbd>"
  {
    SplitJoin([key]);
    assert Split(key) == [key];
    assert KbdAll([key]) == [Kbd(key)];
    assert ComboCells([key]) == [ComboCell(key)];
  }

  /** Whitespace around a single key does not show in the cell. */
  lemma PaddedKeyCell(before: char, key: string, after: char)
    requires IsWhitespace(before) && IsKey(key) && IsWhitespace(after)
    ensures KeyCell([[before] + key + [after]]) == "<kbd>" + key + "</kbd>"
  {
    var c := [before] + key + [after];
    assert c == [before] + (key + [after] + []);
    SplitSkipsWhitespace(before, key + [after] + []);
    SplitEndsFieldAtWhitespace(key, after, []);
    SplitEmpty();
    assert Split(c) == [key];
    assert KbdAll([key]) == [Kbd(key)];
    assert ComboCells([c]) == [ComboCell(c)];
  }

  /** A combination written as keys separated by single spaces shows exactly those keys. */
  lemma {:induction false} ComboCellOfKeys(keys: seq<string>)
    requires AllKeys(keys)
    ensures ComboCell(Join(keys, " ")) == Join(KbdAll(keys), " + ")
  {
    SplitJoin(keys);
  }

  /** Alternatives are appended after " / ", in list order. */
  lemma KeyCellAppend(combinations: seq<string>, c: string)
    requires combinations != []
    ensures KeyCell(combinations + [c]) == KeyCell(combinations) + " / " + ComboCell(c)
  {
    assert ComboCells(combinations + [c]) == ComboCells(combinations) + [ComboCell(c)];
    JoinAppend(ComboCells(combinations), [ComboCell(c)], " / ");
  }

  /** A single combination is the whole cell. */
  lemma SingleComboCell(c: string)
    ensures KeyCell([c]) == ComboCell(c)
  {
    assert ComboCells([c]) == [ComboCell(c)];
  }

  /** A two-key chord `"a b"` renders as two marked keys joined by " + ". */
  lemma ChordCell(a: string, b: string)
    requires IsKey(a) && IsKey(b)
    ensures ComboCell(a + " " + b) == Kbd(a) + " + " + Kbd(b)
  {
    ComboCellOfKeys([a, b]);
    assert Join([a, b], " ") == a + " " + b;
    assert KbdAll([a, b]) == [Kbd(a), Kbd(b)];
  }

  /**
    Two alternative two-key chords, such as `["g n", "G N"]`: each chord's keys
    are joined by " + " and the chords by " / ".
   */
  lemma TwoChordCell(a: string, b: string, c: string, d: string)
    requires IsKey(a) && IsKey(b) && IsKey(c) && IsKey(d)
    ensures KeyCell([a + " " + b, c + " " + d])
         == Kbd(a) + " + " + Kbd(b) + " / " + Kbd(c) + " + " + Kbd(d)
  {
    ChordCell(a, b);
    ChordCell(c, d);
    SingleComboCell(a + " " + b);
    KeyCellAppend([a + " " + b], c + " " + d);
    assert [a + " " + b] + [c + " " + d] == [a + " " + b, c + " " + d];
  }

  // ---------------------------------------------------------------------
  // Counting the markers

  /** The number of positions of `s` at which the marker `<kbd>` starts. */
  function Markers(s: string): nat {
    if |s| < 5 then 0
    else (if s[..5] == "<kbd>" then 1 else 0) + Markers(s[1..])
  }

  /** The number of keys in all the combinations together. */
  function TotalKeys(combinations: seq<string>): nat {
    if combinations == [] then 0
    else |Split(combinations[0])| + TotalKeys(combinations[1..])
  }

  /** No key of any combination contains the marker text itself. */
  predicate MarkerFreeKeys(combinations: seq<string>) {
    forall i :: 0 <= i < |combinations| ==> MarkerFree(Split(combinations[i]))
  }

  predicate MarkerFree(keys: seq<string>) {
    forall j :: 0 <= j < |keys| ==> Markers(keys[j]) == 0
  }

  lemma MarkersSkip(c: char, t: string)
    requires c != '<'
    ensures Markers([c] + t) == Markers(t)
  {
    var s := [c] + t;
    if |s| >= 5 {
      assert s[..5][0] == c;
      assert s[1..] == t;
    }
  }

  /** A stretch without '<' contributes no marker. */
  lemma {:induction false} MarkersNoOpen(a: string, t: string)
    requires forall i :: 0 <= i < |a| ==> a[i] != '<'
    ensures Markers(a + t) == Markers(t)
    decreases |a|
  {
    if a == [] {
      assert a + t == t;
    } else {
      assert a + t == [a[0]] + (a[1..] + t);
      MarkersSkip(a[0], a[1..] + t);
      MarkersNoOpen(a[1..], t);
    }
  }

  /** No marker starts inside a marker-free key or inside the closing tag after it. */
  lemma {:induction false} MarkersAfterKey(k: string, t: string)
    requires Markers(k) == 0
    ensures Markers(k + "</kbd>" + t) == Markers(t)
    decreases |k|
  {
    var s := k + "</kbd>" + t;
    if k == [] {
      assert s == "</kbd>" + t;
      assert s[..5] == "</kbd";
      assert s[1..] == "/kbd>" + t;
      MarkersNoOpen("/kbd>", t);
    } else {
      if |k| >= 5 {
        assert s[..5] == k[..5];
        assert Markers(k[1..]) == 0;
      } else {
        assert s[..5][|k|] == '<';
        assert "<kbd>"[|k|] != '<';
      }
      assert s[1..] == k[1..] + "</kbd>" + t;
      MarkersAfterKey(k[1..], t);
    }
  }

  lemma MarkersKbd(k: string, t: string)
    requires Markers(k) == 0
    ensures Markers(Kbd(k) + t) == 1 + Markers(t)
  {
    var s := Kbd(k) + t;
    assert s[..5] == "<kbd>";
    assert s[1..] == "kbd>" + (k + "</kbd>" + t);
    MarkersNoOpen("kbd>", k + "</kbd>" + t);
    MarkersAfterKey(k, t);
  }

  lemma {:induction false} MarkersCombo(keys: seq<string>, t: string)
    requires MarkerFree(keys)
    ensures Markers(Join(KbdAll(keys), " + ") + t) == |keys| + Markers(t)
    decreases |keys|
  {
    var ks := KbdAll(keys);
    if |keys| == 1 {
      MarkersKbd(keys[0], t);
    } else if |keys| > 1 {
      assert ks[1..] == KbdAll(keys[1..]);
      var rest := Join(KbdAll(keys[1..]), " + ");
      assert Join(ks, " + ") + t == Kbd(keys[0]) + (" + " + (rest + t));
      MarkersKbd(keys[0], " + " + (rest + t));
      MarkersNoOpen(" + ", rest + t);
      MarkersCombo(keys[1..], t);
    } else {
      assert Join(ks, " + ") + t == t;
    }
  }

  lemma {:induction false} MarkersCells(combinations: seq<string>, t: string)
    requires MarkerFreeKeys(combinations)
    ensures Markers(KeyCell(combinations) + t) == TotalKeys(combinations) + Markers(t)
    decreases |combinations|
  {
    var cells := ComboCells(combinations);
    if |combinations| == 1 {
      MarkersCombo(Split(combinations[0]), t);
    } else if |combinations| > 1 {
      assert cells[1..] == ComboCells(combinations[1..]);
      var rest := KeyCell(combinations[1..]);
      assert KeyCell(combinations) + t == ComboCell(combinations[0]) + (" / " + (rest + t));
      MarkersCombo(Split(combinations[0]), " / " + (rest + t));
      MarkersNoOpen(" / ", rest + t);
      MarkerFreeTail(combinations);
      MarkersCells(combinations[1..], t);
    } else {
      assert KeyCell(combinations) + t == t;
    }
  }

  lemma MarkerFreeTail(combinations: seq<string>)
    requires combinations != [] && MarkerFreeKeys(combinations)
    ensures MarkerFreeKeys(combinations[1..])
  {
    forall i | 0 <= i < |combinations[1..]|
      ensures MarkerFree(Split(combinations[1..][i]))
    {
      assert combinations[1..][i] == combinations[i + 1];
    }
  }

  /**
    There are as many `<kbd>` markers in a cell as there are keys in all its
    combinations, as long as no key itself contains the text `<kbd>`.
   */
  lemma MarkerCount(combinations: seq<string>)
    requires MarkerFreeKeys(combinations)
    ensures Markers(KeyCell(combinations)) == TotalKeys(combinations)
  {
    MarkersCells(combinations, "");
    assert KeyCell(combinations) + "" == KeyCell(combinations);
  }

  // ---------------------------------------------------------------------
  // Reading a cell back

  /** The key inside a `<kbd>…</kbd>` token, if the token has that shape. */
  function Unwrap(token: string): (r: Option<string>)
    ensures r.Some? ==> Kbd(r.value) == token
  {
    if |token| >= 11 && token[..5] == "<kbd>" && token[|token| - 6..] == "</kbd>" then
      var key := token[5..|token| - 6];
      assert token == token[..5] + key + token[|token| - 6..];
      Some(key)
    else None
  }

  /** Unwrapping undoes wrapping, for every key. */
  lemma UnwrapKbd(key: string)
    ensures Unwrap(Kbd(key)) == Some(key)
  {
    var t := Kbd(key);
    assert t[..5] == "<kbd>";
    assert t[|t| - 6..] == "</kbd>";
    assert t[5..|t| - 6] == key;
  }

  /**
    Reads the space-separated tokens of a cell: marked keys, with "+"
    between the keys of one combination and "/" between combinations.
   */
  function ParseTokens(tokens: seq<string>): (r: Option<seq<seq<string>>>)
    ensures r.Some? ==> r.value != []
    decreases |tokens|
  {
    if tokens == [] then None
    else match Unwrap(tokens[0])
      case None => None
      case Some(key) =>
        if |tokens| == 1 then Some([[key]])
        else if |tokens| == 2 then None
        else if tokens[1] == "+" then
          match ParseTokens(tokens[2..])
          case None => None
          case Some(cs) => Some([[key] + cs[0]] + cs[1..])
        else if tokens[1] == "/" then
          match ParseTokens(tokens[2..])
          case None => None
          case Some(cs) => Some([[key]] + cs)
        else None
  }

  /** Decodes a key cell into the keys of each of its combinations. */
  function ParseCell(cell: string): Option<seq<seq<string>>> {
    ParseTokens(Split(cell))
  }

  /** `xs` with `token` between each pair of neighbours. */
  function Interleave(xs: seq<string>, token: string): (r: seq<string>)
    ensures xs != [] ==> r != []
  {
    if |xs| <= 1 then xs else [xs[0], token] + Interleave(xs[1..], token)
  }

  /** The tokens of a cell whose every combination holds at least one key. */
  function CellTokens(combinations: seq<string>): seq<string> {
    if combinations == [] then []
    else if |combinations| == 1 then Interleave(KbdAll(Split(combinations[0])), "+")
    else Interleave(KbdAll(Split(combinations[0])), "+") + ["/"] + CellTokens(combinations[1..])
  }

  lemma {:induction false} JoinAppend(a: seq<string>, b: seq<string>, sep: string)
    requires a != [] && b != []
    ensures Join(a + b, sep) == Join(a, sep) + sep + Join(b, sep)
    decreases |a|
  {
    if |a| == 1 {
      assert (a + b)[1..] == b;
    } else {
      assert (a + b)[1..] == a[1..] + b;
      JoinAppend(a[1..], b, sep);
    }
  }

  lemma {:induction false} JoinInterleave(xs: seq<string>, token: string)
    ensures Join(Interleave(xs, token), " ") == Join(xs, " " + token + " ")
    decreases |xs|
  {
    if |xs| > 1 {
      var tail := Interleave(xs[1..], token);
      JoinInterleave(xs[1..], token);
      assert ([xs[0], token] + tail)[1..] == [token] + tail;
      assert ([token] + tail)[1..] == tail;
    }
  }

  lemma {:induction false} KeyCellTokens(combinations: seq<string>)
    requires forall i :: 0 <= i < |combinations| ==> Split(combinations[i]) != []
    ensures Join(CellTokens(combinations), " ") == KeyCell(combinations)
    decreases |combinations|
  {
    if combinations != [] {
      ComboTokens(combinations[0]);
      if |combinations| > 1 {
        var first := Interleave(KbdAll(Split(combinations[0])), "+");
        var rest := CellTokens(combinations[1..]);
        KeyCellTokens(combinations[1..]);
        CellTokensNonEmpty(combinations[1..]);
        JoinAroundSlash(first, rest);
        KeyCellCons(combinations);
      } else {
        assert ComboCells(combinations) == [ComboCell(combinations[0])];
      }
    }
  }

  /** The tokens of one combination, joined by spaces, are its rendering. */
  lemma ComboTokens(c: string)
    ensures Join(Interleave(KbdAll(Split(c)), "+"), " ") == ComboCell(c)
  {
    JoinInterleave(KbdAll(Split(c)), "+");
    assert " " + "+" + " " == " + ";
  }

  lemma CellTokensNonEmpty(combinations: seq<string>)
    requires combinations != [] && Split(combinations[0]) != []
    ensures CellTokens(combinations) != []
  {
  }

  lemma JoinAroundSlash(first: seq<string>, rest: seq<string>)
    requires first != [] && rest != []
    ensures Join(first + ["/"] + rest, " ") == Join(first, " ") + " / " + Join(rest, " ")
  {
    assert first + ["/"] + rest == first + (["/"] + rest);
    JoinAppend(first, ["/"] + rest, " ");
    JoinAppend(["/"], rest, " ");
    assert Join(["/"], " ") == "/";
    assert Join(first, " ") + " " + ("/" + " " + Join(rest, " "))
        == Join(first, " ") + " / " + Join(rest, " ");
  }

  /** A cell of several combinations is the first one's rendering, " / ", and the rest's cell. */
  lemma KeyCellCons(combinations: seq<string>)
    requires |combinations| > 1
    ensures KeyCell(combinations) == ComboCell(combinations[0]) + " / " + KeyCell(combinations[1..])
  {
    var cells := ComboCells(combinations);
    assert cells[1..] == ComboCells(combinations[1..]);
  }

  lemma TokensAreKeys(combinations: seq<string>)
    ensures AllKeys(CellTokens(combinations))
    decreases |combinations|
  {
    if combinations != [] {
      KbdTokensAreKeys(Split(combinations[0]));
      if |combinations| > 1 {
        TokensAreKeys(combinations[1..]);
        assert IsKey("/");
      }
    }
  }

  lemma {:induction false} KbdTokensAreKeys(keys: seq<string>)
    requires AllKeys(keys)
    ensures AllKeys(Interleave(KbdAll(keys), "+"))
    decreases |keys|
  {
    var ks := KbdAll(keys);
    forall j | 0 <= j < |keys| ensures IsKey(ks[j]) {
      assert ks[j] == "<kbd>" + keys[j] + "</kbd>";
      assert IsKey(keys[j]);
      forall p | 0 <= p < |ks[j]| ensures !IsWhitespace(ks[j][p]) {
        if 5 <= p < 5 + |keys[j]| {
          assert ks[j][p] == keys[j][p - 5];
        }
      }
    }
    InterleaveKeys(ks, "+");
  }

  lemma {:induction false} InterleaveKeys(xs: seq<string>, token: string)
    requires AllKeys(xs) && IsKey(token)
    ensures AllKeys(Interleave(xs, token))
    decreases |xs|
  {
    if |xs| > 1 {
      InterleaveKeys(xs[1..], token);
    }
  }

  /** Reading back the tokens of one combination followed by `rest`. */
  lemma {:induction false} ParseCombo(keys: seq<string>, rest: seq<string>, more: seq<seq<string>>)
    requires keys != []
    requires rest == [] ==> more == []
    requires rest != [] ==> rest[0] == "/" && ParseTokens(rest[1..]) == Some(more)
    ensures ParseTokens(Interleave(KbdAll(keys), "+") + rest) == Some([keys] + more)
    decreases |keys|
  {
    var ts := Interleave(KbdAll(keys), "+") + rest;
    UnwrapKbd(keys[0]);
    if |keys| == 1 {
      assert Interleave(KbdAll(keys), "+") == [Kbd(keys[0])];
      if rest == [] {
        assert ts == [Kbd(keys[0])];
        assert Unwrap(ts[0]) == Some(keys[0]);
        assert keys == [keys[0]];
        assert [keys] + more == [[keys[0]]];
      } else {
        assert ts == [Kbd(keys[0])] + rest;
        assert ts[1] == "/";
        assert ts[2..] == rest[1..];
        assert |rest[1..]| > 0;
        assert Unwrap(ts[0]) == Some(keys[0]);
        assert keys == [keys[0]];
        assert ParseTokens(ts) == Some([[keys[0]]] + more);
      }
    } else {
      var inner := Interleave(KbdAll(keys[1..]), "+");
      assert KbdAll(keys)[1..] == KbdAll(keys[1..]);
      assert ts == [Kbd(keys[0]), "+"] + (inner + rest);
      assert ts[2..] == inner + rest;
      ParseCombo(keys[1..], rest, more);
      assert inner != [];
      assert ts[1] == "+";
      var cs := [keys[1..]] + more;
      assert cs[0] == keys[1..] && cs[1..] == more;
      assert Unwrap(ts[0]) == Some(keys[0]);
      assert ParseTokens(ts) == Some([[keys[0]] + cs[0]] + cs[1..]);
      assert keys == [keys[0]] + keys[1..];
    }
  }

  function KeyLists(combinations: seq<string>): (r: seq<seq<string>>)
    ensures |r| == |combinations|
    ensures forall i :: 0 <= i < |combinations| ==> r[i] == Split(combinations[i])
  {
    if combinations == [] then [] else [Split(combinations[0])] + KeyLists(combinations[1..])
  }

  lemma {:induction false} ParseAllTokens(combinations: seq<string>)
    requires combinations != []
    requires forall i :: 0 <= i < |combinations| ==> Split(combinations[i]) != []
    ensures ParseTokens(CellTokens(combinations)) == Some(KeyLists(combinations))
    decreases |combinations|
  {
    if |combinations| == 1 {
      ParseCombo(Split(combinations[0]), [], []);
      assert Interleave(KbdAll(Split(combinations[0])), "+") + [] == CellTokens(combinations);
    } else {
      var rest := ["/"] + CellTokens(combinations[1..]);
      ParseAllTokens(combinations[1..]);
      assert rest[1..] == CellTokens(combinations[1..]);
      ParseCombo(Split(combinations[0]), rest, KeyLists(combinations[1..]));
      assert Interleave(KbdAll(Split(combinations[0])), "+") + rest == CellTokens(combinations);
    }
  }

  /**
    A cell reads back as the keys of each combination, in order, whenever
    there is at least one combination and each holds at least one key.
   */
  lemma DecodeKeyCell(combinations: seq<string>)
    requires combinations != []
    requires forall i :: 0 <= i < |combinations| ==> Split(combinations[i]) != []
    ensures ParseCell(KeyCell(combinations))
         == Some(seq(|combinations|, i requires 0 <= i < |combinations| => Split(combinations[i])))
  {
    KeyCellTokens(combinations);
    TokensAreKeys(combinations);
    SplitJoin(CellTokens(combinations));
    ParseAllTokens(combinations);
    assert KeyLists(combinations)
        == seq(|combinations|, i requires 0 <= i < |combinations| => Split(combinations[i]));
  }
}
