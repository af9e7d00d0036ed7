/** Sorted keys with values, and what adding a sorted batch to them gives: a key that is there already keeps its
    value. */
module BpItems {

  datatype Item = Item(key: nat, value: nat)

  ghost predicate Sorted(s: seq<Item>) { forall i, j :: 0 <= i < j < |s| ==> s[i].key <= s[j].key }

  ghost predicate Strict(s: seq<Item>) { forall i, j :: 0 <= i < j < |s| ==> s[i].key < s[j].key }

  /** Merge by key; where both have the key, the old item stays. */
  function Merge(had: seq<Item>, items: seq<Item>): (r: seq<Item>)
    decreases |had| + |items|
  {
    if items == [] then had
    else if had == [] then items
    else if items[0].key < had[0].key then [items[0]] + Merge(had, items[1..])
    else if items[0].key == had[0].key then [had[0]] + Merge(had[1..], items[1..])
    else [had[0]] + Merge(had[1..], items)
  }

  /** Smaller items come first. */
  lemma {:induction false} MergeSmaller(had: seq<Item>, items: seq<Item>, k: nat)
    requires k <= |items| && (had != [] ==> forall i :: 0 <= i < k ==> items[i].key < had[0].key)
    ensures Merge(had, items) == items[..k] + Merge(had, items[k..])
  {
    if k == 0 {
      assert items[0..] == items;
    } else if had == [] {
      assert items == items[..k] + items[k..];
      assert Merge(had, items) == items && Merge(had, items[k..]) == items[k..];
    } else {
      MergeSmaller(had, items[1..], k - 1);
      assert items[1..][..k - 1] == items[1..k] && items[1..][k - 1..] == items[k..];
      assert items[..k] == [items[0]] + items[1..k];
    }
  }

  /** An old item in front of everything: an equal one is dropped. */
  lemma {:induction false} MergeFirst(had: seq<Item>, items: seq<Item>)
    requires had != [] && (items != [] ==> had[0].key <= items[0].key)
    ensures Merge(had, items) == [had[0]] + Merge(had[1..], Dropped(had[0].key, items))
  {
    assert items == [] ==> had == [had[0]] + had[1..];
  }

  /** The items without a first one with the key. */
  function Dropped(key: nat, items: seq<Item>): seq<Item> {
    if items != [] && items[0].key == key then items[1..] else items
  }

  /** The first k items are below the key, the others are not. */
  ghost predicate Cut(items: seq<Item>, k: nat, key: nat) {
    k <= |items| && (forall i :: 0 <= i < k ==> items[i].key < key) &&
        forall i :: k <= i < |items| ==> key <= items[i].key
  }

  lemma {:induction false} CutRest(items: seq<Item>, k: nat, key: nat)
    requires 0 < k && Cut(items, k, key)
    ensures Cut(items[1..], k - 1, key) && items[..k][0] == items[0] && items[..k][1..] == items[1..][..k - 1]
    ensures items[1..][k - 1..] == items[k..]
  {
  }

  lemma Join<T>(x: T, s: seq<T>, t: seq<T>)
    ensures [x] + (s + t) == ([x] + s) + t
  {
  }

  /** A batch can be cut at a key of the old items and each part merged for itself. */
  lemma {:induction false} MergeSplit(a: seq<Item>, b: seq<Item>, items: seq<Item>, k: nat)
    requires b != [] && Cut(a, |a|, b[0].key) && Cut(items, k, b[0].key)
    ensures Merge(a + b, items) == Merge(a, items[..k]) + Merge(b, items[k..])
    decreases |a| + k
  {
    if a == [] {
      assert a + b == b;
      MergeSmaller(b, items, k);
      assert Merge(a, items[..k]) == items[..k];
    } else {
      assert (a + b)[0] == a[0] && (a + b)[1..] == a[1..] + b;
      if k == 0 {
        MergeSplit(a[1..], b, items, 0);
        NoneBelow(a, b, items);
      } else {
        CutRest(items, k, b[0].key);
        var x := items[..k];
        if items[0].key < a[0].key {
          MergeSplit(a, b, items[1..], k - 1);
          Join(items[0], Merge(a, x[1..]), Merge(b, items[k..]));
        } else if items[0].key == a[0].key {
          MergeSplit(a[1..], b, items[1..], k - 1);
          Join(a[0], Merge(a[1..], x[1..]), Merge(b, items[k..]));
        } else {
          MergeSplit(a[1..], b, items, k);
          Join(a[0], Merge(a[1..], x), Merge(b, items[k..]));
        }
      }
    }
  }

  lemma {:induction false} NoneBelow(a: seq<Item>, b: seq<Item>, items: seq<Item>)
    requires a != [] && b != [] && Cut(a, |a|, b[0].key) && Cut(items, 0, b[0].key)
    requires Merge(a[1..] + b, items) == Merge(a[1..], items[..0]) + Merge(b, items[0..])
    ensures Merge(a + b, items) == Merge(a, items[..0]) + Merge(b, items[0..])
  {
    assert items[..0] == [] && items[0..] == items && (a + b)[1..] == a[1..] + b;
    assert Merge(a, []) == a && Merge(a[1..], []) == a[1..];
    if items == [] {
      assert Merge(a + b, items) == a + b;
    } else {
      assert Merge(a + b, items) == [a[0]] + Merge(a[1..] + b, items);
      Join(a[0], a[1..], Merge(b, items));
      assert a == [a[0]] + a[1..];
    }
  }

  // ---- what is in the merged items

  ghost predicate Has(s: seq<Item>, key: nat) { exists i :: 0 <= i < |s| && s[i].key == key }

  lemma HasRest(s: seq<Item>, key: nat)
    requires s != []
    ensures Has(s, key) <==> s[0].key == key || Has(s[1..], key)
  {
    if Has(s, key) && s[0].key != key {
      var i :| 0 <= i < |s| && s[i].key == key;
      assert s[1..][i - 1].key == key;
    }
    if Has(s[1..], key) {
      var i :| 0 <= i < |s[1..]| && s[1..][i].key == key;
      assert s[i + 1].key == key;
    }
  }

  /** The keys are those of both. */
  lemma {:induction false} MergeKeys(had: seq<Item>, items: seq<Item>, key: nat)
    ensures Has(Merge(had, items), key) <==> Has(had, key) || Has(items, key)
    decreases |had| + |items|
  {
    if items != [] && had != [] {
      HasRest(had, key);
      HasRest(items, key);
      HasRest(Merge(had, items), key);
      if items[0].key < had[0].key {
        MergeKeys(had, items[1..], key);
      } else if items[0].key == had[0].key {
        MergeKeys(had[1..], items[1..], key);
      } else {
        MergeKeys(had[1..], items, key);
      }
    }
  }

  /** Every old item stays, with its value. */
  lemma {:induction false} MergeKeepsOld(had: seq<Item>, items: seq<Item>, x: Item)
    requires x in had
    ensures x in Merge(had, items)
    decreases |had| + |items|
  {
    if items != [] {
      assert x == had[0] || x in had[1..];
      if items[0].key < had[0].key {
        MergeKeepsOld(had, items[1..], x);
      } else if x != had[0] {
        MergeKeepsOld(had[1..], if items[0].key == had[0].key then items[1..] else items, x);
      }
    }
  }

  /** A new item is added with its value where the key is new. */
  lemma {:induction false} MergeAddsNew(had: seq<Item>, items: seq<Item>, x: Item)
    requires x in items && !Has(had, x.key)
    ensures x in Merge(had, items)
    decreases |had| + |items|
  {
    if had != [] {
      assert x == items[0] || x in items[1..];
      HasRest(had, x.key);
      if items[0].key < had[0].key {
        if x != items[0] {
          MergeAddsNew(had, items[1..], x);
        }
      } else if items[0].key == had[0].key {
        MergeAddsNew(had[1..], items[1..], x);
      } else {
        MergeAddsNew(had[1..], items, x);
      }
    }
  }

  // ---- order

  lemma {:induction false} MergeAtLeast(had: seq<Item>, items: seq<Item>, low: nat, i: nat)
    requires (forall j :: 0 <= j < |had| ==> low <= had[j].key)
    requires (forall j :: 0 <= j < |items| ==> low <= items[j].key) && i < |Merge(had, items)|
    ensures low <= Merge(had, items)[i].key
    decreases |had| + |items|
  {
    if items != [] && had != [] && i > 0 {
      if items[0].key < had[0].key {
        MergeAtLeast(had, items[1..], low, i - 1);
      } else if items[0].key == had[0].key {
        MergeAtLeast(had[1..], items[1..], low, i - 1);
      } else {
        MergeAtLeast(had[1..], items, low, i - 1);
      }
    }
  }

  lemma StrictCons(x: Item, s: seq<Item>)
    ensures Strict([x] + s) <==> Strict(s) && forall i :: 0 <= i < |s| ==> x.key < s[i].key
  {
    var r := [x] + s;
    if Strict(r) {
      forall i, j | 0 <= i < j < |s| ensures s[i].key < s[j].key {
        assert r[i + 1].key < r[j + 1].key;
      }
      forall i | 0 <= i < |s| ensures x.key < s[i].key {
        assert r[0].key < r[i + 1].key;
      }
    }
  }

  ghost predicate Above(s: seq<Item>, key: nat) { forall i :: 0 <= i < |s| ==> key < s[i].key }

  /** An item in front of merged items is below all of them exactly if it is below all of both. */
  lemma {:induction false} MergeAbove(had: seq<Item>, items: seq<Item>, key: nat)
    ensures Above(Merge(had, items), key) <==> Above(had, key) && Above(items, key)
  {
    var r := Merge(had, items);
    if Above(r, key) {
      forall i | 0 <= i < |had| ensures key < had[i].key {
        MergeKeys(had, items, had[i].key);
        assert Has(had, had[i].key);
      }
      forall i | 0 <= i < |items| ensures key < items[i].key {
        MergeKeys(had, items, items[i].key);
        assert Has(items, items[i].key);
      }
    } else if Above(had, key) && Above(items, key) {
      var i :| 0 <= i < |r| && r[i].key <= key;
      MergeAtLeast(had, items, key + 1, i);
      assert false;
    }
  }

  /** One step: x goes in front of the rest. */
  lemma {:induction false} StrictStep(x: Item, had: seq<Item>, items: seq<Item>)
    requires Strict(Merge(had, items)) <==> Strict(items)
    ensures Strict([x] + Merge(had, items)) <==> Strict(items) && Above(had, x.key) && Above(items, x.key)
  {
    StrictCons(x, Merge(had, items));
    MergeAbove(had, items, x.key);
  }

  lemma StrictRest(s: seq<Item>)
    requires s != []
    ensures Strict(s) <==> Strict(s[1..]) && Above(s[1..], s[0].key)
  {
    assert s == [s[0]] + s[1..];
    StrictCons(s[0], s[1..]);
  }

  /** From strictly sorted old items and sorted new ones: the result is strictly sorted exactly if the new items are. */
  lemma {:induction false} MergeStrict(had: seq<Item>, items: seq<Item>)
    requires Strict(had) && Sorted(items)
    ensures Strict(Merge(had, items)) <==> Strict(items)
    decreases |had| + |items|
  {
    if items != [] && had != [] {
      StrictRest(had);
      StrictRest(items);
      if items[0].key < had[0].key {
        MergeStrict(had, items[1..]);
        StrictStep(items[0], had, items[1..]);
      } else if items[0].key == had[0].key {
        MergeStrict(had[1..], items[1..]);
        StrictStep(had[0], had[1..], items[1..]);
      } else {
        MergeStrict(had[1..], items);
        StrictStep(had[0], had[1..], items);
      }
    }
  }
}
