/** The category picker: a click on a category adds it to the selection or
    takes it out. */
module CategorySelector {
  import opened Seqs
  import opened Catalog

  /** `xs.filter(c => c !== x)`. */
  function Without(xs: seq<CategoryId>, x: CategoryId): (r: seq<CategoryId>)
    ensures x !in r
    ensures forall y :: y != x ==> (y in r <==> y in xs)
    ensures multiset(r) == multiset(xs)[x := 0]
    ensures IsSubsequence(r, xs)
    decreases |xs|
  {
    if xs == [] then []
    else
      var rest := Without(xs[1..], x);
      assert xs == [xs[0]] + xs[1..];
      if xs[0] == x then
        SubsequenceExtend(rest, xs[1..], xs[0]);
        rest
      else
        assert ([xs[0]] + rest)[1..] == rest;
        [xs[0]] + rest
  }

  /** `toggleCategory(id)`: the selection passed to `onChange`. */
  function ToggleCategory(selected: seq<CategoryId>, id: CategoryId): (r: seq<CategoryId>)
    ensures id in r <==> id !in selected
    ensures forall y :: y != id ==> (y in r <==> y in selected)
    ensures id !in selected ==> r == selected + [id]
    ensures id in selected ==> multiset(r) == multiset(selected)[id := 0] && IsSubsequence(r, selected)
  {
    if id in selected then Without(selected, id) else selected + [id]
  }

  /** Taking out an id that is not there changes nothing. */
  lemma {:induction false} WithoutAbsent(xs: seq<CategoryId>, x: CategoryId)
    requires x !in xs
    ensures Without(xs, x) == xs
    decreases |xs|
  {
    if xs != [] {
      WithoutAbsent(xs[1..], x);
      assert xs == [xs[0]] + xs[1..];
    }
  }

  /** Appending and then removing an absent id restores the list. */
  lemma {:induction false} WithoutAppended(xs: seq<CategoryId>, x: CategoryId)
    requires x !in xs
    ensures Without(xs + [x], x) == xs
    decreases |xs|
  {
    if xs == [] {
      assert [] + [x] == [x];
      assert [x][1..] == [];
    } else {
      assert (xs + [x])[1..] == xs[1..] + [x];
      WithoutAppended(xs[1..], x);
      assert xs == [xs[0]] + xs[1..];
    }
  }

  /** Selecting an unselected category and then deselecting it gives back
      exactly the original selection. */
  lemma ToggleTwiceAbsent(selected: seq<CategoryId>, id: CategoryId)
    requires id !in selected
    ensures ToggleCategory(ToggleCategory(selected, id), id) == selected
  {
    WithoutAppended(selected, id);
  }

  /** Two toggles of the same id leave the set of selected ids as it was. */
  lemma ToggleTwiceMembers(selected: seq<CategoryId>, id: CategoryId)
    ensures (set y | y in ToggleCategory(ToggleCategory(selected, id), id)) == (set y | y in selected)
  {
  }

  /** No id twice, position by position. */
  predicate Distinct(xs: seq<CategoryId>) {
    forall i, j :: 0 <= i < j < |xs| ==> xs[i] != xs[j]
  }

  /** A selection without repeats keeps none after the removal. */
  lemma {:induction false} WithoutDistinct(xs: seq<CategoryId>, x: CategoryId)
    requires Distinct(xs)
    ensures Distinct(Without(xs, x))
    decreases |xs|
  {
    if xs != [] {
      WithoutDistinct(xs[1..], x);
      var rest := Without(xs[1..], x);
      if xs[0] != x {
        assert xs[0] !in xs[1..];
        assert xs[0] !in rest;
        var r := [xs[0]] + rest;
        forall i, j | 0 <= i < j < |r|
          ensures r[i] != r[j]
        {
          if i == 0 {
            assert r[j] == rest[j - 1];
          } else {
            assert r[i] == rest[i - 1] && r[j] == rest[j - 1];
          }
        }
      }
    }
  }

  /** A toggle never introduces a repeated id. */
  lemma ToggleDistinct(selected: seq<CategoryId>, id: CategoryId)
    requires Distinct(selected)
    ensures Distinct(ToggleCategory(selected, id))
  {
    if id in selected {
      WithoutDistinct(selected, id);
    }
  }
}
