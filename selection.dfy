/** The selection coordinator: the ids of the checked rows, as an ordered list. */
module Selection {
  import opened Domain

  /** `prev.filter(id => id !== x)`. */
  function Without(s: seq<int>, x: int): (r: seq<int>)
    ensures x !in r
    ensures forall y :: y != x ==> (y in r <==> y in s)
    ensures |r| <= |s|
  {
    if s == [] then []
    else if s[0] == x then Without(s[1..], x)
    else [s[0]] + Without(s[1..], x)
  }

  /** Removing an absent id changes nothing. */
  lemma {:induction false} WithoutAbsent(s: seq<int>, x: int)
    requires x !in s
    ensures Without(s, x) == s
  {
    if s != [] {
      WithoutAbsent(s[1..], x);
      assert s == [s[0]] + s[1..];
    }
  }

  /** Removal distributes over concatenation. */
  lemma {:induction false} WithoutAppend(s: seq<int>, t: seq<int>, x: int)
    ensures Without(s + t, x) == Without(s, x) + Without(t, x)
  {
    if s == [] {
      assert s + t == t;
    } else {
      assert (s + t)[1..] == s[1..] + t;
      WithoutAppend(s[1..], t, x);
    }
  }

  /** `handleSelectPost`: drop every occurrence of a selected id, append an unselected one. */
  function Toggle(selected: seq<int>, id: int): (r: seq<int>)
    ensures id in r <==> id !in selected
    ensures forall y :: y != id ==> (y in r <==> y in selected)
  {
    if id in selected then Without(selected, id) else selected + [id]
  }

  /** Toggling leaves the other ids, and their relative order, as they were;
      an unselected id goes to the end. */
  lemma ToggleKeepsOthers(selected: seq<int>, id: int)
    ensures Without(Toggle(selected, id), id) == Without(selected, id)
    ensures id !in selected ==> Toggle(selected, id) == selected + [id]
    ensures id in selected ==> |Toggle(selected, id)| < |selected|
  {
    if id in selected {
      WithoutWithout(selected, id);
      WithoutShrinks(selected, id);
    } else {
      WithoutAppend(selected, [id], id);
      assert Without([id], id) == [];
      assert Without(selected, id) + [] == Without(selected, id);
    }
  }

  lemma {:induction false} WithoutWithout(s: seq<int>, x: int)
    ensures Without(Without(s, x), x) == Without(s, x)
  {
    WithoutAbsent(Without(s, x), x);
  }

  lemma {:induction false} WithoutShrinks(s: seq<int>, x: int)
    requires x in s
    ensures |Without(s, x)| < |s|
  {
    if s[0] != x {
      WithoutShrinks(s[1..], x);
    }
  }

  /** Toggling an unselected id twice restores the selection. */
  lemma ToggleTwiceAbsent(selected: seq<int>, id: int)
    requires id !in selected
    ensures Toggle(Toggle(selected, id), id) == selected
  {
    ToggleKeepsOthers(selected, id);
    WithoutAbsent(selected, id);
  }

  /** `sortedPosts.map(post => post.id)`. */
  function Ids(view: seq<Post>): (r: seq<int>)
    ensures |r| == |view|
    ensures forall k :: 0 <= k < |view| ==> r[k] == view[k].id
  {
    seq(|view|, k requires 0 <= k < |view| => view[k].id)
  }

  /** `handleSelectAll`: clears when the selection is as long as the view,
      otherwise selects exactly the visible ids in view order. */
  function SelectAll(selected: seq<int>, view: seq<Post>): (r: seq<int>)
    ensures r == [] || r == Ids(view)
    ensures forall y :: y in r ==> exists k :: 0 <= k < |view| && view[k].id == y
  {
    if |selected| == |view| then [] else Ids(view)
  }

  /** The result is empty exactly when the lengths agree or nothing is visible. */
  lemma SelectAllClears(selected: seq<int>, view: seq<Post>)
    ensures SelectAll(selected, view) == [] <==> |selected| == |view| || view == []
  {
  }

  /** Pressing select-all twice restores the selection exactly when it was
      empty or was already the visible ids in view order. */
  lemma SelectAllTwice(selected: seq<int>, view: seq<Post>)
    ensures SelectAll(SelectAll(selected, view), view) == selected <==> selected == [] || selected == Ids(view)
  {
  }

  /** No id occurs twice. */
  ghost predicate Distinct(s: seq<int>) {
    forall i, j :: 0 <= i < j < |s| ==> s[i] != s[j]
  }

  lemma {:induction false} DistinctCard(s: seq<int>)
    requires Distinct(s)
    ensures |set x | x in s| == |s|
  {
    if s != [] {
      DistinctCard(s[1..]);
      assert (set x | x in s) == (set x | x in s[1..]) + {s[0]};
      assert s[0] !in s[1..];
    }
  }

  /** A subset is no larger, and equally large only when equal. */
  lemma SubsetCard(a: set<int>, b: set<int>)
    requires a <= b
    ensures |a| <= |b|
    ensures |a| == |b| ==> a == b
  {
    assert b == a + (b - a);
    if |a| == |b| {
      assert |b - a| == 0;
    }
  }

  /** When the selection holds distinct visible ids and the view's ids are distinct,
      the length test is the same as "every visible post is selected". */
  lemma LengthTestMeansAllSelected(selected: seq<int>, view: seq<Post>)
    requires Distinct(selected) && Distinct(Ids(view))
    requires forall y :: y in selected ==> y in Ids(view)
    ensures |selected| == |view| <==> forall k :: 0 <= k < |view| ==> view[k].id in selected
  {
    var a, b := set x | x in selected, set x | x in Ids(view);
    DistinctCard(selected);
    DistinctCard(Ids(view));
    SubsetCard(a, b);
    if |selected| == |view| {
      forall k | 0 <= k < |view|
        ensures view[k].id in selected
      {
        assert Ids(view)[k] in b;
      }
    } else if forall k :: 0 <= k < |view| ==> view[k].id in selected {
      forall y | y in b
        ensures y in a
      {
        var k :| 0 <= k < |view| && Ids(view)[k] == y;
      }
      SubsetCard(b, a);
    }
  }
}
