/**
  Grouping the key-binding table by category.

  The table is read in its declaration order; each binding's help text and
  key combinations are appended to the list kept for its category, a
  dictionary in which a missing category reads as the empty list.
 */
module Grouping {

  /** One value of the key-binding table. */
  datatype KeyBinding = KeyBinding(helpText: string, keyCategory: string, keys: seq<string>)

  /** The `(help text, key combinations)` pair a category's list holds. */
  datatype Entry = Entry(helpText: string, keys: seq<string>)

  /** The pair a binding contributes to its category's list. */
  function EntryOf(b: KeyBinding): Entry {
    Entry(b.helpText, b.keys)
  }

  /**
    The reference bucket of category `c`: the entries of exactly the bindings
    whose category is `c`, in table order.
   */
  function Bucket(bindings: seq<KeyBinding>, c: string): (r: seq<Entry>)
    ensures |r| <= |bindings|
  {
    if bindings == [] then []
    else (if bindings[0].keyCategory == c then [EntryOf(bindings[0])] else []) + Bucket(bindings[1..], c)
  }

  /** The categories that at least one binding names. */
  function CategoriesOf(bindings: seq<KeyBinding>): set<string> {
    set i | 0 <= i < |bindings| :: bindings[i].keyCategory
  }

  /**
    Reading a category from a dictionary whose missing keys read as the
    empty list, as a `defaultdict(list)` does.
   */
  function Lookup(categories: map<string, seq<Entry>>, c: string): seq<Entry> {
    if c in categories then categories[c] else []
  }

  /**
    Walks the table once, appending each binding to its category's list.
    Exactly the categories the table names become keys, and every category,
    present or not, reads as its reference bucket.
   */
  method ReadHelpCategories(bindings: seq<KeyBinding>) returns (categories: map<string, seq<Entry>>)
    ensures categories.Keys == CategoriesOf(bindings)
    ensures forall c :: Lookup(categories, c) == Bucket(bindings, c)
  {
    categories := map[];
    for i := 0 to |bindings|
      invariant categories.Keys == CategoriesOf(bindings[..i])
      invariant forall c :: Lookup(categories, c) == Bucket(bindings[..i], c)
    {
      var item := bindings[i];
      ghost var before := categories;
      categories := categories[item.keyCategory := Lookup(categories, item.keyCategory) + [Entry(item.helpText, item.keys)]];
      GroupStep(before, bindings, i);
    }
    assert bindings[..|bindings|] == bindings;
  }

  /**
    Appending binding `i`'s entry to its category's list, after bindings 0 to
    i-1 were grouped, groups bindings 0 to i: the keys are the categories they
    name and every category reads as its bucket.
   */
  lemma GroupStep(before: map<string, seq<Entry>>, bindings: seq<KeyBinding>, i: nat)
    requires i < |bindings|
    requires before.Keys == CategoriesOf(bindings[..i])
    requires forall c :: Lookup(before, c) == Bucket(bindings[..i], c)
    ensures var item := bindings[i];
            var after := before[item.keyCategory := Lookup(before, item.keyCategory) + [EntryOf(item)]];
            after.Keys == CategoriesOf(bindings[..i + 1]) && forall c :: Lookup(after, c) == Bucket(bindings[..i + 1], c)
  {
    var item := bindings[i];
    var prefix := bindings[..i];
    var after := before[item.keyCategory := Lookup(before, item.keyCategory) + [EntryOf(item)]];
    assert bindings[..i + 1] == prefix + [item];
    CategoriesOfAppend(prefix, item);
    forall c ensures Lookup(after, c) == Bucket(prefix + [item], c) {
      BucketAppend(prefix, [item], c);
      SingleBucket(item, c);
      if c == item.keyCategory {
        assert Lookup(after, c) == Lookup(before, c) + [EntryOf(item)];
      } else {
        assert Lookup(after, c) == Lookup(before, c);
      }
    }
  }

  lemma CategoriesOfAppend(bindings: seq<KeyBinding>, b: KeyBinding)
    ensures CategoriesOf(bindings + [b]) == CategoriesOf(bindings) + {b.keyCategory}
  {
    var s := bindings + [b];
    assert s[|bindings|] == b;
    forall x | x in CategoriesOf(s) ensures x in CategoriesOf(bindings) + {b.keyCategory} {
      var i :| 0 <= i < |s| && s[i].keyCategory == x;
      if i < |bindings| {
        assert bindings[i] == s[i];
      }
    }
    forall x | x in CategoriesOf(bindings) ensures x in CategoriesOf(s) {
      var i :| 0 <= i < |bindings| && bindings[i].keyCategory == x;
      assert s[i] == bindings[i];
    }
  }

  /** Grouping two stretches of the table one after the other. */
  lemma {:induction false} BucketAppend(a: seq<KeyBinding>, b: seq<KeyBinding>, c: string)
    ensures Bucket(a + b, c) == Bucket(a, c) + Bucket(b, c)
    decreases |a|
  {
    if a == [] {
      assert a + b == b;
    } else {
      var head := if a[0].keyCategory == c then [EntryOf(a[0])] else [];
      assert (a + b)[0] == a[0];
      assert (a + b)[1..] == a[1..] + b;
      assert Bucket(a + b, c) == head + Bucket(a[1..] + b, c);
      BucketAppend(a[1..], b, c);
      assert Bucket(a, c) == head + Bucket(a[1..], c);
      assert head + (Bucket(a[1..], c) + Bucket(b, c)) == (head + Bucket(a[1..], c)) + Bucket(b, c);
    }
  }

  /**
    A category's bucket is empty exactly when no binding names it: a category
    nobody uses reads as an empty list, and only such a category does.
   */
  lemma {:induction false} BucketEmptyIff(bindings: seq<KeyBinding>, c: string)
    ensures Bucket(bindings, c) == [] <==> c !in CategoriesOf(bindings)
    decreases |bindings|
  {
    if bindings != [] {
      BucketEmptyIff(bindings[1..], c);
      CategoriesOfAppend([bindings[0]], bindings[0]);
      assert CategoriesOf(bindings) == {bindings[0].keyCategory} + CategoriesOf(bindings[1..]) by {
        forall x | x in CategoriesOf(bindings)
          ensures x in {bindings[0].keyCategory} + CategoriesOf(bindings[1..])
        {
          var i :| 0 <= i < |bindings| && bindings[i].keyCategory == x;
          if i > 0 {
            assert bindings[1..][i - 1] == bindings[i];
          }
        }
        forall x | x in CategoriesOf(bindings[1..]) ensures x in CategoriesOf(bindings) {
          var i :| 0 <= i < |bindings[1..]| && bindings[1..][i].keyCategory == x;
          assert bindings[i + 1] == bindings[1..][i];
        }
        assert bindings[0].keyCategory in CategoriesOf(bindings);
      }
    }
  }

  /** The position binding `i` takes in its category's bucket: the number of earlier bindings there. */
  function Rank(bindings: seq<KeyBinding>, i: nat): nat
    requires i < |bindings|
  {
    |Bucket(bindings[..i], bindings[i].keyCategory)|
  }

  /** Every binding is in the bucket of its own category, at its rank. */
  lemma BindingInItsBucket(bindings: seq<KeyBinding>, i: nat)
    requires i < |bindings|
    ensures Rank(bindings, i) < |Bucket(bindings, bindings[i].keyCategory)|
    ensures Bucket(bindings, bindings[i].keyCategory)[Rank(bindings, i)] == EntryOf(bindings[i])
  {
    var c := bindings[i].keyCategory;
    assert bindings == bindings[..i] + ([bindings[i]] + bindings[i + 1..]);
    BucketAppend(bindings[..i], [bindings[i]] + bindings[i + 1..], c);
    BucketAppend([bindings[i]], bindings[i + 1..], c);
    assert Bucket([bindings[i]], c) == [EntryOf(bindings[i])];
  }

  /** Two bindings of one category stand in its bucket in table order, so never at the same place. */
  lemma BucketKeepsTableOrder(bindings: seq<KeyBinding>, i: nat, j: nat)
    requires i < j < |bindings|
    requires bindings[i].keyCategory == bindings[j].keyCategory
    ensures Rank(bindings, i) < Rank(bindings, j)
  {
    var c := bindings[i].keyCategory;
    assert bindings[..j] == bindings[..i] + ([bindings[i]] + bindings[i + 1..j]);
    BucketAppend(bindings[..i], [bindings[i]] + bindings[i + 1..j], c);
    BucketAppend([bindings[i]], bindings[i + 1..j], c);
    assert Bucket([bindings[i]], c) == [EntryOf(bindings[i])];
  }

  /** Every entry of a bucket is a binding of that category, standing at that binding's rank. */
  lemma {:induction false} BucketEntryHasSource(bindings: seq<KeyBinding>, c: string, k: nat)
    requires k < |Bucket(bindings, c)|
    ensures exists i :: 0 <= i < |bindings| && bindings[i].keyCategory == c
                        && Rank(bindings, i) == k && Bucket(bindings, c)[k] == EntryOf(bindings[i])
    decreases |bindings|
  {
    var head := Bucket([bindings[0]], c);
    var tail := bindings[1..];
    BucketCons(bindings, c);
    SingleBucket(bindings[0], c);
    if head != [] && k == 0 {
      assert bindings[..0] == [];
      assert Rank(bindings, 0) == 0;
      assert bindings[0].keyCategory == c && Bucket(bindings, c)[0] == EntryOf(bindings[0]);
    } else {
      var k' := k - |head|;
      BucketEntryHasSource(tail, c, k');
      var i' :| 0 <= i' < |tail| && tail[i'].keyCategory == c
                && Rank(tail, i') == k' && Bucket(tail, c)[k'] == EntryOf(tail[i']);
      var i := i' + 1;
      RankOfTail(bindings, i);
      assert bindings[i] == tail[i'];
      assert Bucket(bindings, c)[k] == Bucket(tail, c)[k'];
      assert bindings[i].keyCategory == c && Rank(bindings, i) == k && Bucket(bindings, c)[k] == EntryOf(bindings[i]);
    }
  }

  /** The bucket of a table is that of its first binding followed by that of the rest. */
  lemma BucketCons(bindings: seq<KeyBinding>, c: string)
    requires bindings != []
    ensures Bucket(bindings, c) == Bucket([bindings[0]], c) + Bucket(bindings[1..], c)
  {
    BucketAppend([bindings[0]], bindings[1..], c);
    assert [bindings[0]] + bindings[1..] == bindings;
  }

  /** A single binding's bucket holds its entry exactly when the category is its own. */
  lemma SingleBucket(b: KeyBinding, c: string)
    ensures Bucket([b], c) == if b.keyCategory == c then [EntryOf(b)] else []
  {
    assert [b][1..] == [];
  }

  /** Ranks in the table without its first binding are shifted by that binding. */
  lemma RankOfTail(bindings: seq<KeyBinding>, i: nat)
    requires 0 < i < |bindings|
    ensures Rank(bindings, i) == |Bucket([bindings[0]], bindings[i].keyCategory)| + Rank(bindings[1..], i - 1)
  {
    var c := bindings[i].keyCategory;
    assert bindings[..i] == [bindings[0]] + bindings[1..][..i - 1];
    assert bindings[1..][i - 1] == bindings[i];
    BucketAppend([bindings[0]], bindings[1..][..i - 1], c);
  }

  predicate Distinct(ids: seq<string>) {
    forall i, j :: 0 <= i < j < |ids| ==> ids[i] != ids[j]
  }

  /** Every binding's category is one of `ids`. */
  predicate Covers(ids: seq<string>, bindings: seq<KeyBinding>) {
    forall i :: 0 <= i < |bindings| ==> bindings[i].keyCategory in ids
  }

  /** The total length of the buckets of the categories `ids`. */
  function BucketSizes(bindings: seq<KeyBinding>, ids: seq<string>): nat {
    if ids == [] then 0
    else BucketSizes(bindings, ids[..|ids| - 1]) + |Bucket(bindings, ids[|ids| - 1])|
  }

  /** The number of bindings whose category is one of `ids`. */
  function ListedCount(bindings: seq<KeyBinding>, ids: seq<string>): nat {
    if bindings == [] then 0
    else (if bindings[0].keyCategory in ids then 1 else 0) + ListedCount(bindings[1..], ids)
  }

  /** How many times `x` occurs in `ids`. */
  function Occurrences(ids: seq<string>, x: string): nat {
    if ids == [] then 0
    else Occurrences(ids[..|ids| - 1], x) + (if ids[|ids| - 1] == x then 1 else 0)
  }

  lemma {:induction false} OccurrencesDistinct(ids: seq<string>, x: string)
    requires Distinct(ids)
    ensures Occurrences(ids, x) == if x in ids then 1 else 0
    decreases |ids|
  {
    if ids != [] {
      var init := ids[..|ids| - 1];
      OccurrencesDistinct(init, x);
      assert ids == init + [ids[|ids| - 1]];
      if ids[|ids| - 1] == x {
        forall k | 0 <= k < |init| ensures init[k] != x {
          assert init[k] == ids[k];
        }
      }
    }
  }

  /** Dropping the first binding shrinks the buckets of `ids` by as many times as its category occurs there. */
  lemma {:induction false} BucketSizesTail(bindings: seq<KeyBinding>, ids: seq<string>)
    requires bindings != []
    ensures BucketSizes(bindings, ids) == BucketSizes(bindings[1..], ids) + Occurrences(ids, bindings[0].keyCategory)
    decreases |ids|
  {
    if ids != [] {
      BucketSizesTail(bindings, ids[..|ids| - 1]);
    }
  }

  /**
    Grouping neither drops nor duplicates: over the categories `ids`, listed
    once each, the buckets hold as many entries as there are bindings in those
    categories, and all the bindings when `ids` names every category used.
   */
  lemma {:induction false} BucketSizesSum(bindings: seq<KeyBinding>, ids: seq<string>)
    requires Distinct(ids)
    ensures BucketSizes(bindings, ids) == ListedCount(bindings, ids)
    ensures Covers(ids, bindings) ==> BucketSizes(bindings, ids) == |bindings|
    decreases |bindings|
  {
    if bindings == [] {
      BucketSizesEmpty(bindings, ids);
    } else {
      BucketSizesTail(bindings, ids);
      OccurrencesDistinct(ids, bindings[0].keyCategory);
      BucketSizesSum(bindings[1..], ids);
      if Covers(ids, bindings) {
        assert bindings[0].keyCategory in ids;
        assert Covers(ids, bindings[1..]) by {
          forall i | 0 <= i < |bindings[1..]| ensures bindings[1..][i].keyCategory in ids {
            assert bindings[1..][i] == bindings[i + 1];
          }
        }
      }
    }
  }

  lemma {:induction false} BucketSizesEmpty(bindings: seq<KeyBinding>, ids: seq<string>)
    requires bindings == []
    ensures BucketSizes(bindings, ids) == 0
    decreases |ids|
  {
    if ids != [] {
      BucketSizesEmpty(bindings, ids[..|ids| - 1]);
    }
  }
}
