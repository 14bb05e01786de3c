/**
 * The filter selector shared by the skills and the projects sections: an
 * active category tag over a fixed item list. The tag "all" shows the list as
 * it is; any other tag shows the items of that category, in their original
 * order (`Array.prototype.filter`, a stable filter).
 */
module CategoryFilter {

  /** The distinguished tag that disables filtering. */
  const AllTag: string := "all"

  /** `a` is obtained from `b` by deleting elements: order is preserved. */
  predicate IsSubsequence<T(==)>(a: seq<T>, b: seq<T>)
    decreases |b|
  {
    if |a| == 0 then true
    else if |b| == 0 then false
    else if a[0] == b[0] then IsSubsequence(a[1..], b[1..])
    else IsSubsequence(a, b[1..])
  }

  /**
   * Reference count of the items of category `tag`, scanning from the back
   * (independent of the front-to-back recursion of `Keep`).
   */
  function CountCategory<T>(items: seq<T>, category: T -> string, tag: string): nat
    decreases |items|
  {
    if |items| == 0 then 0
    else CountCategory(items[..|items| - 1], category, tag)
         + (if category(items[|items| - 1]) == tag then 1 else 0)
  }

  /** The items of category `tag`, in their original order. */
  function Keep<T>(items: seq<T>, category: T -> string, tag: string): (r: seq<T>)
    ensures |r| <= |items|
    decreases |items|
  {
    if |items| == 0 then []
    else if category(items[0]) == tag then [items[0]] + Keep(items[1..], category, tag)
    else Keep(items[1..], category, tag)
  }

  /** The view the section renders for the active tag. */
  function View<T(==)>(items: seq<T>, category: T -> string, active: string): (r: seq<T>)
    ensures active == AllTag ==> r == items
    ensures active != AllTag ==> forall x :: x in r ==> x in items && category(x) == active
    ensures active != AllTag ==> forall x :: x in items && category(x) == active ==> x in r
    ensures IsSubsequence(r, items)
    ensures active != AllTag ==> |r| == CountCategory(items, category, active)
  {
    if active == AllTag then
      SubsequenceReflexive(items);
      items
    else
      KeepMembers(items, category, active);
      KeepIsSubsequence(items, category, active);
      KeepLengthIsCount(items, category, active);
      Keep(items, category, active)
  }

  /** An item is kept exactly when it is in the list and has category `tag`. */
  lemma {:induction false} KeepMembers<T>(items: seq<T>, category: T -> string, tag: string)
    ensures forall x :: x in Keep(items, category, tag) ==> x in items && category(x) == tag
    ensures forall x :: x in items && category(x) == tag ==> x in Keep(items, category, tag)
    decreases |items|
  {
    if |items| > 0 {
      KeepMembers(items[1..], category, tag);
      forall x | x in items && category(x) == tag ensures x in Keep(items, category, tag) {
        if x != items[0] {
          assert x in items[1..];
        }
      }
    }
  }

  lemma {:induction false} SubsequenceReflexive<T>(xs: seq<T>)
    ensures IsSubsequence(xs, xs)
    decreases |xs|
  {
    if |xs| > 0 {
      SubsequenceReflexive(xs[1..]);
    }
  }

  /** Filtering keeps the relative order of the kept items. */
  lemma {:induction false} KeepIsSubsequence<T>(items: seq<T>, category: T -> string, tag: string)
    ensures IsSubsequence(Keep(items, category, tag), items)
    decreases |items|
  {
    if |items| > 0 {
      KeepIsSubsequence(items[1..], category, tag);
      KeepMembers(items[1..], category, tag);
      var rest := Keep(items[1..], category, tag);
      if category(items[0]) == tag {
        assert ([items[0]] + rest)[1..] == rest;
      } else if |rest| > 0 {
        // items[0] cannot be matched: every kept item has category `tag`
        assert rest[0] in rest;
        assert rest[0] != items[0];
      }
    }
  }

  /** Filtering distributes over concatenation. */
  lemma {:induction false} KeepAppend<T>(a: seq<T>, b: seq<T>, category: T -> string, tag: string)
    ensures Keep(a + b, category, tag) == Keep(a, category, tag) + Keep(b, category, tag)
    decreases |a|
  {
    if |a| == 0 {
      assert a + b == b;
    } else {
      assert (a + b)[0] == a[0];
      assert (a + b)[1..] == a[1..] + b;
      KeepAppend(a[1..], b, category, tag);
    }
  }

  /** The length of the filtered list is the number of items of that category. */
  lemma {:induction false} KeepLengthIsCount<T>(items: seq<T>, category: T -> string, tag: string)
    ensures |Keep(items, category, tag)| == CountCategory(items, category, tag)
    decreases |items|
  {
    if |items| > 0 {
      var init := items[..|items| - 1];
      var last := items[|items| - 1];
      assert items == init + [last];
      KeepAppend(init, [last], category, tag);
      KeepLengthIsCount(init, category, tag);
      assert [last][1..] == [];
    }
  }

  /** Filtering twice by the same tag is filtering once. */
  lemma {:induction false} KeepIdempotent<T>(items: seq<T>, category: T -> string, tag: string)
    ensures Keep(Keep(items, category, tag), category, tag) == Keep(items, category, tag)
    decreases |items|
  {
    if |items| > 0 {
      KeepIdempotent(items[1..], category, tag);
      var rest := Keep(items[1..], category, tag);
      if category(items[0]) == tag {
        assert ([items[0]] + rest)[0] == items[0];
        assert ([items[0]] + rest)[1..] == rest;
      }
    }
  }

  /** Items that are pairwise distinct under `key`. */
  predicate DistinctBy<T, K(==)>(xs: seq<T>, key: T -> K) {
    forall i, j :: 0 <= i < j < |xs| ==> key(xs[i]) != key(xs[j])
  }

  lemma {:induction false} SubsequenceMembers<T>(a: seq<T>, b: seq<T>)
    requires IsSubsequence(a, b)
    ensures forall x :: x in a ==> x in b
    decreases |b|
  {
    if |a| > 0 {
      if a[0] == b[0] {
        SubsequenceMembers(a[1..], b[1..]);
        forall x | x in a ensures x in b {
          if x != a[0] {
            assert x in a[1..];
          }
        }
      } else {
        SubsequenceMembers(a, b[1..]);
      }
    }
  }

  /** Deleting elements cannot create a duplicate key. */
  lemma {:induction false} SubsequenceKeepsDistinct<T, K>(a: seq<T>, b: seq<T>, key: T -> K)
    requires IsSubsequence(a, b)
    requires DistinctBy(b, key)
    ensures DistinctBy(a, key)
    decreases |b|
  {
    if |a| > 0 {
      assert DistinctBy(b[1..], key) by {
        forall i, j | 0 <= i < j < |b[1..]| ensures key(b[1..][i]) != key(b[1..][j]) {
          assert b[1..][i] == b[i + 1] && b[1..][j] == b[j + 1];
        }
      }
      if a[0] == b[0] {
        SubsequenceKeepsDistinct(a[1..], b[1..], key);
        SubsequenceMembers(a[1..], b[1..]);
        forall i, j | 0 <= i < j < |a| ensures key(a[i]) != key(a[j]) {
          if i == 0 {
            assert a[j] == a[1..][j - 1];
            assert a[j] in b[1..];
            var m :| 0 <= m < |b[1..]| && b[1..][m] == a[j];
            assert b[m + 1] == a[j];
          } else {
            assert a[i] == a[1..][i - 1] && a[j] == a[1..][j - 1];
          }
        }
      } else {
        SubsequenceKeepsDistinct(a, b[1..], key);
      }
    }
  }

  /** Sum, over `tags`, of the sizes of the filtered views. */
  function SumCounts<T>(items: seq<T>, category: T -> string, tags: seq<string>): nat
    decreases |tags|
  {
    if |tags| == 0 then 0
    else |Keep(items, category, tags[0])| + SumCounts(items, category, tags[1..])
  }

  /** Number of positions of `tags` holding `c`. */
  function Occurrences(tags: seq<string>, c: string): nat
    decreases |tags|
  {
    if |tags| == 0 then 0
    else (if tags[0] == c then 1 else 0) + Occurrences(tags[1..], c)
  }

  lemma {:induction false} OccursOnce(tags: seq<string>, c: string)
    requires DistinctBy(tags, (t: string) => t)
    requires c in tags
    ensures Occurrences(tags, c) == 1
    decreases |tags|
  {
    if tags[0] == c {
      NotOccurring(tags[1..], c);
    } else {
      assert c in tags[1..];
      OccursOnce(tags[1..], c);
    }
  }

  lemma {:induction false} NotOccurring(tags: seq<string>, c: string)
    requires c !in tags
    ensures Occurrences(tags, c) == 0
    decreases |tags|
  {
    if |tags| > 0 {
      NotOccurring(tags[1..], c);
    }
  }

  lemma {:induction false} SumCountsCons<T>(h: T, rest: seq<T>, category: T -> string, tags: seq<string>)
    ensures SumCounts([h] + rest, category, tags)
         == Occurrences(tags, category(h)) + SumCounts(rest, category, tags)
    decreases |tags|
  {
    assert ([h] + rest)[0] == h;
    assert ([h] + rest)[1..] == rest;
    if |tags| > 0 {
      SumCountsCons(h, rest, category, tags[1..]);
    }
  }

  /**
   * When the tags are distinct and cover every item's category, the filtered
   * views partition the list: their sizes add up to the list's length.
   */
  lemma {:induction false} PartitionCount<T>(items: seq<T>, category: T -> string, tags: seq<string>)
    requires DistinctBy(tags, (t: string) => t)
    requires forall x :: x in items ==> category(x) in tags
    ensures SumCounts(items, category, tags) == |items|
    decreases |items|
  {
    if |items| == 0 {
      EmptySumCounts(category, tags);
    } else {
      assert items == [items[0]] + items[1..];
      SumCountsCons(items[0], items[1..], category, tags);
      OccursOnce(tags, category(items[0]));
      PartitionCount(items[1..], category, tags);
    }
  }

  lemma {:induction false} EmptySumCounts<T>(category: T -> string, tags: seq<string>)
    ensures SumCounts([], category, tags) == 0
    decreases |tags|
  {
    if |tags| > 0 {
      EmptySumCounts(category, tags[1..]);
    }
  }

  /**
   * A click on the filter button at position `i` makes its tag active. One
   * button is rendered per tag, so a position outside the list cannot be
   * clicked and changes nothing.
   */
  function Select(buttons: seq<string>, active: string, i: int): (r: string)
    ensures r in buttons || r == active
    ensures 0 <= i < |buttons| ==> r == buttons[i]
  {
    if 0 <= i < |buttons| then buttons[i] else active
  }

  /** The active tag after a sequence of button clicks. */
  function SelectRun(buttons: seq<string>, active: string, clicks: seq<int>): string
    decreases |clicks|
  {
    if |clicks| == 0 then active
    else SelectRun(buttons, Select(buttons, active, clicks[0]), clicks[1..])
  }

  /**
   * Reference definition: the tag of the last click that hit a button,
   * scanning from the back; `active` if there was none.
   */
  function LastSelected(buttons: seq<string>, active: string, clicks: seq<int>): string
    decreases |clicks|
  {
    if |clicks| == 0 then active
    else
      var i := clicks[|clicks| - 1];
      if 0 <= i < |buttons| then buttons[i]
      else LastSelected(buttons, active, clicks[..|clicks| - 1])
  }

  lemma {:induction false} SelectRunAppend(buttons: seq<string>, active: string, a: seq<int>, b: seq<int>)
    ensures SelectRun(buttons, active, a + b) == SelectRun(buttons, SelectRun(buttons, active, a), b)
    decreases |a|
  {
    if |a| == 0 {
      assert a + b == b;
    } else {
      assert (a + b)[0] == a[0];
      assert (a + b)[1..] == a[1..] + b;
      SelectRunAppend(buttons, Select(buttons, active, a[0]), a[1..], b);
    }
  }

  /** The active tag is the one of the last button clicked, or the initial tag. */
  lemma {:induction false} SelectRunIsLastSelected(buttons: seq<string>, active: string, clicks: seq<int>)
    ensures SelectRun(buttons, active, clicks) == LastSelected(buttons, active, clicks)
    decreases |clicks|
  {
    if |clicks| > 0 {
      var init := clicks[..|clicks| - 1];
      var last := clicks[|clicks| - 1];
      assert clicks == init + [last];
      SelectRunAppend(buttons, active, init, [last]);
      SelectRunIsLastSelected(buttons, active, init);
      assert [last][1..] == [];
    }
  }

  /** Starting from a listed tag, the active tag always names a button. */
  lemma {:induction false} SelectedStaysListed(buttons: seq<string>, active: string, clicks: seq<int>)
    requires active in buttons
    ensures SelectRun(buttons, active, clicks) in buttons
    decreases |clicks|
  {
    if |clicks| > 0 {
      SelectedStaysListed(buttons, Select(buttons, active, clicks[0]), clicks[1..]);
    }
  }
}
