/** The derived views the dashboard recomputes from the stored questions and
    the selected category: the visible questions, the category distribution,
    the difficulty distribution and the sorted list of categories offered by
    the filter. */
module Views {
  import opened TriviaTypes
  import opened StringOrder

  /** The selection that stands for "no filtering". */
  const All: string := "all"

  /** `r` is `s` with some elements deleted and the rest kept in order. */
  predicate IsSubsequence<T(==)>(r: seq<T>, s: seq<T>)
    decreases |s|
  {
    r == [] || (s != [] && if r[0] == s[0] then IsSubsequence(r[1..], s[1..]) else IsSubsequence(r, s[1..]))
  }

  /** No value occurs twice in `s`. */
  predicate NoDuplicates<T(==)>(s: seq<T>)
  {
    forall i, j :: 0 <= i < j < |s| ==> s[i] != s[j]
  }

  /** The position at which `x` first occurs in `s`. */
  function FirstIndex<T(==)>(s: seq<T>, x: T): (i: nat)
    requires x in s
    ensures i < |s| && s[i] == x && x !in s[..i]
  {
    if s[0] == x then 0
    else
      var i := 1 + FirstIndex(s[1..], x);
      assert s[..i] == [s[0]] + s[1..][..i - 1];
      i
  }

  lemma FirstIndexOfPrefix<T>(p: seq<T>, q: seq<T>, x: T)
    requires x in p
    ensures FirstIndex(p + q, x) == FirstIndex(p, x)
  {
    var i, j := FirstIndex(p, x), FirstIndex(p + q, x);
    assert (p + q)[i] == x && (p + q)[..i] == p[..i];
  }

  // ---------------------------------------------------------------------
  // visibleQuestions

  /** The questions whose category is `category`, in their original order. */
  function Matching(questions: seq<Question>, category: string): (r: seq<Question>)
    ensures forall i :: 0 <= i < |r| ==> r[i].category == category
    ensures forall q :: multiset(r)[q] == if q.category == category then multiset(questions)[q] else 0
    ensures IsSubsequence(r, questions)
  {
    if questions == [] then []
    else
      assert questions == [questions[0]] + questions[1..];
      var rest := Matching(questions[1..], category);
      if questions[0].category == category then [questions[0]] + rest else rest
  }

  lemma SubsequenceNoLonger<T>(r: seq<T>, s: seq<T>)
    requires IsSubsequence(r, s)
    ensures |r| <= |s|
    decreases |s|
  {
    if r != [] {
      if r[0] == s[0] {
        SubsequenceNoLonger(r[1..], s[1..]);
      } else {
        SubsequenceNoLonger(r, s[1..]);
      }
    }
  }

  /** The questions shown for the selection `selected`: all of them for
      `"all"`, otherwise exactly those of that category, in order. */
  function VisibleQuestions(questions: seq<Question>, selected: string): (r: seq<Question>)
    ensures selected == All ==> r == questions
    ensures selected != All ==> IsSubsequence(r, questions)
    ensures selected != All ==> forall i :: 0 <= i < |r| ==> r[i].category == selected
    ensures selected != All ==>
      forall q :: multiset(r)[q] == if q.category == selected then multiset(questions)[q] else 0
    ensures |r| <= |questions|
  {
    if selected == All then questions
    else
      var r := Matching(questions, selected);
      SubsequenceNoLonger(r, questions);
      r
  }

  // ---------------------------------------------------------------------
  // categoryDistribution

  /** The category of each question, in order. */
  function Categories(questions: seq<Question>): seq<string>
  {
    seq(|questions|, i requires 0 <= i < |questions| => questions[i].category)
  }

  /** The values of `s` without repetition, in the order in which the keys of
      a `Map` or `Set` filled from `s` are iterated. */
  function Distinct<T(==,!new)>(s: seq<T>): (r: seq<T>)
    ensures NoDuplicates(r)
    ensures forall x :: x in r <==> x in s
  {
    if s == [] then []
    else
      var d := Distinct(s[..|s| - 1]);
      assert s == s[..|s| - 1] + [s[|s| - 1]];
      if s[|s| - 1] in d then d else d + [s[|s| - 1]]
  }

  /** `Distinct` lists the values in the order of their first occurrence. */
  lemma {:induction false} DistinctFirstSeenOrder<T(!new)>(s: seq<T>)
    ensures forall i, j :: 0 <= i < j < |Distinct(s)| ==>
      FirstIndex(s, Distinct(s)[i]) < FirstIndex(s, Distinct(s)[j])
  {
    if s != [] {
      var p, c := s[..|s| - 1], s[|s| - 1];
      assert s == p + [c];
      DistinctFirstSeenOrder(p);
      var d := Distinct(p);
      forall x | x in p
        ensures FirstIndex(s, x) == FirstIndex(p, x) < |p|
      {
        FirstIndexOfPrefix(p, [c], x);
      }
      if c !in d {
        assert FirstIndex(s, c) == |p|;
        forall i, j | 0 <= i < j < |Distinct(s)|
          ensures FirstIndex(s, Distinct(s)[i]) < FirstIndex(s, Distinct(s)[j])
        {
          assert Distinct(s)[i] == d[i];
          if j < |d| {
            assert Distinct(s)[j] == d[j];
          }
        }
      }
    }
  }

  /** One entry per name, counting its occurrences in `m`. */
  function Tally(names: seq<string>, m: multiset<string>): (r: seq<Slice<string>>)
    ensures |r| == |names|
    ensures forall k :: 0 <= k < |r| ==> r[k] == Slice(names[k], m[names[k]])
  {
    seq(|names|, k requires 0 <= k < |names| => Slice(names[k], m[names[k]]))
  }

  /** The category distribution of a list of categories: for each distinct
      category, in order of first occurrence, the number of its occurrences. */
  function CategoryTally(cats: seq<string>): (r: seq<Slice<string>>)
    ensures |r| == |Distinct(cats)|
  {
    Tally(Distinct(cats), multiset(cats))
  }

  /** The entries of the category distribution have distinct names, listed in
      order of first occurrence, each with its number of occurrences, which is
      at least one, and every category occurring has an entry. */
  lemma CategoryTallyShape(cats: seq<string>)
    ensures var r := CategoryTally(cats);
      && (forall k :: 0 <= k < |r| ==> r[k].name in cats && r[k].value == multiset(cats)[r[k].name] && r[k].value >= 1)
      && (forall i, j :: 0 <= i < j < |r| ==>
            r[i].name != r[j].name && FirstIndex(cats, r[i].name) < FirstIndex(cats, r[j].name))
      && (forall c :: c in cats ==> exists k :: 0 <= k < |r| && r[k].name == c)
  {
    var r, names := CategoryTally(cats), Distinct(cats);
    DistinctFirstSeenOrder(cats);
    forall k | 0 <= k < |r|
      ensures r[k].value >= 1
    {
      assert r[k].name == names[k] && names[k] in cats;
      assert r[k].name in multiset(cats);
    }
    forall c | c in cats
      ensures exists k :: 0 <= k < |r| && r[k].name == c
    {
      var k := FirstIndex(names, c);
      assert r[k].name == c;
    }
  }

  /** One more value leaves the distinct values as they were, or appends it
      when it is new. */
  lemma DistinctSnoc(cats: seq<string>, c: string)
    ensures Distinct(cats + [c]) == if c in cats then Distinct(cats) else Distinct(cats) + [c]
  {
    var s := cats + [c];
    assert s[..|s| - 1] == cats;
  }

  /** One more occurrence of the `j`-th name raises its entry by one. */
  lemma TallyBump(names: seq<string>, m: multiset<string>, j: nat)
    requires NoDuplicates(names) && j < |names|
    ensures var t := Tally(names, m);
      Tally(names, m + multiset{names[j]}) == t[j := Slice(names[j], t[j].value + 1)]
  {
    var t, u := Tally(names, m), Tally(names, m + multiset{names[j]});
    var v := t[j := Slice(names[j], t[j].value + 1)];
    forall k | 0 <= k < |names|
      ensures u[k] == v[k]
    {
      if k < j {
        assert names[k] != names[j];
      } else if j < k {
        assert names[j] != names[k];
      }
    }
  }

  /** A new name with one occurrence appends an entry with count one. */
  lemma TallyAppend(names: seq<string>, m: multiset<string>, c: string)
    requires c !in names && c !in m
    ensures Tally(names + [c], m + multiset{c}) == Tally(names, m) + [Slice(c, 1)]
  {
    var t, u := Tally(names, m), Tally(names + [c], m + multiset{c});
    forall k | 0 <= k < |u|
      ensures u[k] == (t + [Slice(c, 1)])[k]
    {
      if k < |names| {
        assert names[k] in names;
      }
    }
  }

  /** Counting one more occurrence of a category already counted raises the
      count of its entry by one and changes nothing else. */
  lemma CategoryTallyStepSeen(cats: seq<string>, c: string, j: nat)
    requires j < |Distinct(cats)| && Distinct(cats)[j] == c
    ensures var t := CategoryTally(cats);
      CategoryTally(cats + [c]) == t[j := Slice(c, t[j].value + 1)]
  {
    assert c in Distinct(cats);
    DistinctSnoc(cats, c);
    assert multiset(cats + [c]) == multiset(cats) + multiset{c};
    TallyBump(Distinct(cats), multiset(cats), j);
  }

  /** Counting the first occurrence of a category appends an entry with count
      one and changes nothing else. */
  lemma CategoryTallyStepNew(cats: seq<string>, c: string)
    requires c !in cats
    ensures CategoryTally(cats + [c]) == CategoryTally(cats) + [Slice(c, 1)]
  {
    DistinctSnoc(cats, c);
    assert multiset(cats + [c]) == multiset(cats) + multiset{c};
    TallyAppend(Distinct(cats), multiset(cats), c);
  }

  lemma SumValuesAppend<L>(s: seq<Slice<L>>, x: Slice<L>)
    ensures SumValues(s + [x]) == SumValues(s) + x.value
  {
    assert (s + [x])[..|s|] == s;
  }

  lemma {:induction false} SumValuesUpdate<L>(s: seq<Slice<L>>, j: nat, x: Slice<L>)
    requires j < |s|
    ensures SumValues(s[j := x]) == SumValues(s) - s[j].value + x.value
  {
    var n := |s|;
    if j < n - 1 {
      assert s[j := x][..n - 1] == s[..n - 1][j := x];
      SumValuesUpdate(s[..n - 1], j, x);
    } else {
      assert s[j := x][..n - 1] == s[..n - 1];
    }
  }

  /** The counts of the category distribution add up to the number of
      questions counted. */
  lemma {:induction false} CategoryTallySum(cats: seq<string>)
    ensures SumValues(CategoryTally(cats)) == |cats|
  {
    if cats != [] {
      var p, c := cats[..|cats| - 1], cats[|cats| - 1];
      assert cats == p + [c];
      CategoryTallySum(p);
      var t := CategoryTally(p);
      if c in p {
        var j := FirstIndex(Distinct(p), c);
        CategoryTallyStepSeen(p, c, j);
        SumValuesUpdate(t, j, Slice(c, t[j].value + 1));
      } else {
        CategoryTallyStepNew(p, c);
        SumValuesAppend(t, Slice(c, 1));
      }
    }
  }

  /** `keys` (in insertion order) and `counts` form the insertion-ordered
      map that counting the categories `cats` one by one produces. */
  ghost predicate Counted(cats: seq<string>, keys: seq<string>, counts: map<string, nat>)
  {
    && keys == Distinct(cats)
    && (forall c :: c in counts <==> c in keys)
    && (forall c :: c in counts ==> counts[c] == multiset(cats)[c])
  }

  /** Counts one more occurrence of `name`, as
      `counts.set(name, (counts.get(name) ?? 0) + 1)` does on an
      insertion-ordered map: a new key goes last. */
  method CountOne(ghost cats: seq<string>, name: string, keys: seq<string>, counts: map<string, nat>)
    returns (keys': seq<string>, counts': map<string, nat>)
    requires Counted(cats, keys, counts)
    ensures Counted(cats + [name], keys', counts')
  {
    var current := if name in counts then counts[name] else 0;
    keys' := if name in counts then keys else keys + [name];
    counts' := counts[name := current + 1];
    var s := cats + [name];
    assert s[..|s| - 1] == cats;
    assert multiset(s) == multiset(cats) + multiset{name};
  }

  /** The entries of an insertion-ordered map, in insertion order, as
      `Array.from(counts.entries())` lists them. */
  function Entries(keys: seq<string>, counts: map<string, nat>): (r: seq<Slice<string>>)
    requires forall c :: c in keys ==> c in counts
    ensures |r| == |keys|
    ensures forall k :: 0 <= k < |r| ==> r[k].name == keys[k] && r[k].value == counts[keys[k]]
  {
    seq(|keys|, k requires 0 <= k < |keys| => Slice(keys[k], counts[keys[k]]))
  }

  /** Listing the entries of the map gives the category distribution. */
  lemma CountedEntries(cats: seq<string>, keys: seq<string>, counts: map<string, nat>)
    requires Counted(cats, keys, counts)
    ensures Entries(keys, counts) == CategoryTally(cats)
  {
  }

  /** The category distribution of the visible questions, counted with an
      insertion-ordered map (`keys` in insertion order, `counts` the map). */
  method CategoryDistribution(visible: seq<Question>) returns (dist: seq<Slice<string>>)
    ensures dist == CategoryTally(Categories(visible))
  {
    ghost var cats := Categories(visible);
    var keys: seq<string> := [];
    var counts: map<string, nat> := map[];
    for i := 0 to |visible|
      invariant Counted(cats[..i], keys, counts)
    {
      var name := visible[i].category;
      assert cats[..i + 1] == cats[..i] + [name];
      keys, counts := CountOne(cats[..i], name, keys, counts);
    }
    assert cats[..|visible|] == cats;
    CountedEntries(cats, keys, counts);
    dist := Entries(keys, counts);
  }

  /** A list of one repeated category has a one-entry distribution. */
  lemma {:induction false} SingleCategoryTally(cats: seq<string>, c: string)
    requires forall i :: 0 <= i < |cats| ==> cats[i] == c
    ensures CategoryTally(cats) == if cats == [] then [] else [Slice(c, |cats|)]
  {
    if cats != [] {
      var p := cats[..|cats| - 1];
      assert cats == p + [c];
      SingleCategoryTally(p, c);
      if p == [] {
        CategoryTallyStepNew(p, c);
      } else {
        assert CategoryTally(p)[0].name == Distinct(p)[0];
        CategoryTallyStepSeen(p, c, 0);
      }
    }
  }

  /** With a category selected, the category distribution is that category
      alone, counting every visible question, or empty when none is visible. */
  lemma SelectedCategoryDistribution(questions: seq<Question>, selected: string)
    requires selected != All
    ensures var visible := VisibleQuestions(questions, selected);
      CategoryTally(Categories(visible)) == if visible == [] then [] else [Slice(selected, |visible|)]
  {
    SingleCategoryTally(Categories(VisibleQuestions(questions, selected)), selected);
  }

  /** Selecting a category no question has leaves nothing visible and an
      empty category distribution. */
  lemma UnmatchedSelectionIsEmpty(questions: seq<Question>, selected: string)
    requires selected != All
    requires forall i :: 0 <= i < |questions| ==> questions[i].category != selected
    ensures VisibleQuestions(questions, selected) == []
    ensures CategoryTally(Categories(VisibleQuestions(questions, selected))) == []
  {
  }

  // ---------------------------------------------------------------------
  // difficultyDistribution

  /** The difficulty of each question, in order. */
  function Difficulties(questions: seq<Question>): seq<Difficulty>
  {
    seq(|questions|, i requires 0 <= i < |questions| => questions[i].difficulty)
  }

  /** The difficulty distribution: the three labels in fixed order, each with
      the number of questions of that difficulty. */
  function DifficultyTally(visible: seq<Question>): (r: seq<Slice<Difficulty>>)
    ensures |r| == |DifficultyLabels|
    ensures forall k :: 0 <= k < |r| ==> r[k].name == DifficultyLabels[k] && r[k].value <= |visible|
  {
    DifficultyCountsSum(Difficulties(visible));
    seq(|DifficultyLabels|, k requires 0 <= k < |DifficultyLabels| =>
      Slice(DifficultyLabels[k], multiset(Difficulties(visible))[DifficultyLabels[k]]))
  }

  lemma {:induction false} DifficultyCountsSum(ds: seq<Difficulty>)
    ensures multiset(ds)[Easy] + multiset(ds)[Medium] + multiset(ds)[Hard] == |ds|
  {
    if ds != [] {
      var p, d := ds[..|ds| - 1], ds[|ds| - 1];
      assert ds == p + [d];
      assert multiset(ds) == multiset(p) + multiset{d};
      assert d == Easy || d == Medium || d == Hard;
      DifficultyCountsSum(p);
    }
  }

  /** The difficulty distribution has exactly the entries easy, medium and
      hard in that order, even for no questions, and its counts add up to
      the number of questions. */
  lemma DifficultyTallyShape(visible: seq<Question>)
    ensures var r := DifficultyTally(visible);
      && |r| == 3
      && r[0].name == Easy && r[1].name == Medium && r[2].name == Hard
      && (forall k :: 0 <= k < 3 ==> r[k].value == multiset(Difficulties(visible))[r[k].name])
      && SumValues(r) == |visible|
  {
    var r := DifficultyTally(visible);
    DifficultyCountsSum(Difficulties(visible));
    assert r[..1][..0] == [];
    assert r[..2][..1] == r[..1];
    assert r[..3][..2] == r[..2];
    assert r[..3] == r;
    assert SumValues(r[..1]) == r[0].value;
    assert SumValues(r[..2]) == r[0].value + r[1].value;
  }

  /** The difficulty distribution of the visible questions, counted with a map
      seeded with zero for every label. */
  method DifficultyDistribution(visible: seq<Question>) returns (dist: seq<Slice<Difficulty>>)
    ensures dist == DifficultyTally(visible)
  {
    var counts: map<Difficulty, nat> := map[];
    for k := 0 to |DifficultyLabels|
      invariant forall d :: d in counts <==> d in DifficultyLabels[..k]
      invariant forall d :: d in counts ==> counts[d] == 0
    {
      counts := counts[DifficultyLabels[k] := 0];
    }
    assert DifficultyLabels[..|DifficultyLabels|] == DifficultyLabels;
    forall d: Difficulty
      ensures d in counts
    {
      assert d == DifficultyLabels[if d == Easy then 0 else if d == Medium then 1 else 2];
    }
    for i := 0 to |visible|
      invariant forall d :: d in counts
      invariant forall d :: counts[d] == multiset(Difficulties(visible[..i]))[d]
    {
      var d := visible[i].difficulty;
      assert Difficulties(visible[..i + 1]) == Difficulties(visible[..i]) + [d];
      counts := counts[d := (if d in counts then counts[d] else 0) + 1];
    }
    assert visible[..|visible|] == visible;
    dist := seq(|DifficultyLabels|, k requires 0 <= k < |DifficultyLabels| =>
      Slice(DifficultyLabels[k], if DifficultyLabels[k] in counts then counts[DifficultyLabels[k]] else 0));
  }

  // ---------------------------------------------------------------------
  // uniqueQuestionCategories

  /** Every string is at most each one after it. */
  predicate Ascending(s: seq<string>)
  {
    forall i, j :: 0 <= i < j < |s| ==> AtMost(s[i], s[j])
  }

  /** Every string is strictly before each one after it. */
  predicate StrictlyAscending(s: seq<string>)
  {
    forall i, j :: 0 <= i < j < |s| ==> Before(s[i], s[j])
  }

  lemma AscendingCons(x: string, s: seq<string>)
    requires Ascending(s)
    requires forall y :: y in s ==> AtMost(x, y)
    ensures Ascending([x] + s)
  {
  }

  /** `s` sorted, with `x` put in its place. */
  function Insert(x: string, s: seq<string>): (r: seq<string>)
    requires Ascending(s)
    ensures Ascending(r)
    ensures multiset(r) == multiset(s) + multiset{x}
  {
    if s == [] then [x]
    else
      assert s == [s[0]] + s[1..];
      if AtMost(x, s[0]) then
        assert forall y :: y in s ==> AtMost(x, y) by {
          forall y | y in s ensures AtMost(x, y) {
            AtMostTransitive(x, s[0], y);
          }
        }
        AscendingCons(x, s);
        [x] + s
      else
        var rest := Insert(x, s[1..]);
        AtMostTotal(x, s[0]);
        assert forall y :: y in rest ==> AtMost(s[0], y) by {
          forall y | y in rest ensures AtMost(s[0], y) {
            assert y in multiset(rest);
          }
        }
        AscendingCons(s[0], rest);
        [s[0]] + rest
  }

  /** Insertion sort into the order of `Array.prototype.sort`. */
  function SortStrings(s: seq<string>): (r: seq<string>)
    ensures Ascending(r)
    ensures multiset(r) == multiset(s)
  {
    if s == [] then []
    else
      assert s == [s[0]] + s[1..];
      Insert(s[0], SortStrings(s[1..]))
  }

  lemma {:induction false} NoDuplicatesCount(s: seq<string>, x: string)
    requires NoDuplicates(s)
    ensures multiset(s)[x] <= 1
  {
    if s != [] {
      assert s == [s[0]] + s[1..];
      assert s[0] !in s[1..];
      NoDuplicatesCount(s[1..], x);
    }
  }

  /** Sorting values without repetition gives a strictly ascending list. */
  lemma SortedDistinctIsStrict(s: seq<string>, r: seq<string>)
    requires NoDuplicates(s) && Ascending(r) && multiset(r) == multiset(s)
    ensures StrictlyAscending(r)
  {
    forall i, j | 0 <= i < j < |r|
      ensures Before(r[i], r[j])
    {
      if r[i] == r[j] {
        assert r == r[..j] + r[j..];
        assert r[i] in r[..j] && r[j] in r[j..];
        NoDuplicatesCount(s, r[i]);
        assert false;
      }
    }
  }

  /** The categories offered by the filter: the distinct categories of all
      stored questions, whatever the selection, in ascending order. */
  function UniqueQuestionCategories(questions: seq<Question>): (r: seq<string>)
    ensures StrictlyAscending(r)
    ensures forall c :: c in r <==> c in Categories(questions)
  {
    var names := Distinct(Categories(questions));
    var sorted := SortStrings(names);
    SortedDistinctIsStrict(names, sorted);
    assert forall c :: c in sorted <==> c in multiset(names);
    sorted
  }
}
