/** The filter and sort proxy for search results (app/searchfilterproxy.cpp): which rows a name
    filter accepts, and how anchored rows stay on top of any column sort. */
module Filter {
  import opened Bytes
  import opened Text
  import opened Glob

  datatype SearchFilter = SearchFilter(
    text: string, negate: bool, glob: bool, regex: bool, onlyComplete: bool, minSources: u64, maxSources: u64)

  datatype Row = Row(name: string, sourceCount: u64, completeSourceCount: u64)

  /** `QRegularExpression` with the case-insensitive option: which patterns are valid and whether
      one matches somewhere in a name. */
  datatype Engine = Engine(valid: string -> bool, hasMatch: (string, string) -> bool)

  /** On the regular expressions of `Glob` the engine does what they mean. */
  ghost predicate Faithful(e: Engine, same: Folding) {
    forall re :: ParseRegex(re).Some? ==>
      e.valid(re) && forall s :: e.hasMatch(re, s) <==> HasMatch(ParseRegex(re).value, s, same)
  }

  predicate EqualAt(text: string, name: string, i: nat, same: Folding) {
    i + |text| <= |name| && forall k :: 0 <= k < |text| ==> same(text[k], name[i + k])
  }

  /** QString::contains, up to case. */
  predicate Contains(name: string, text: string, same: Folding) {
    exists i :: 0 <= i <= |name| && EqualAt(text, name, i, same)
  }

  predicate BoundsAccept(f: SearchFilter, r: Row) {
    && (f.onlyComplete ==> r.completeSourceCount != 0)
    && (f.minSources > 0 ==> r.sourceCount >= f.minSources)
    && (f.maxSources > 0 ==> r.sourceCount <= f.maxSources)
  }

  // ---------------------------------------------------------------- Filtering

  predicate ByPattern(f: SearchFilter) {
    Trim(f.text) != "" && (f.regex || f.glob)
  }

  /** A regular expression is taken before a glob. */
  function Expression(f: SearchFilter): string {
    if f.regex then Trim(f.text) else RegexOf(Trim(f.text))
  }

  /** What the name filter says of a name. An invalid pattern leaves plain substring search. */
  predicate NameAccepted(engine: Engine, same: Folding, f: SearchFilter, name: string) {
    Trim(f.text) != "" ==>
      (if ByPattern(f) && engine.valid(Expression(f)) then engine.hasMatch(Expression(f), name)
       else Contains(name, Trim(f.text), same)) != f.negate
  }

  class ResultFilter {
    const engine: Engine
    const same: Folding
    var filter: SearchFilter
    var pattern: string
    var usePattern: bool

    /** The compiled pattern belongs to the filter. */
    predicate Valid()
      reads this
    {
      && (usePattern <==> ByPattern(filter) && engine.valid(Expression(filter)))
      && (usePattern ==> pattern == Expression(filter))
    }

    constructor (engine: Engine, same: Folding)
      ensures Valid() && this.engine == engine && this.same == same
      ensures filter == SearchFilter("", false, false, false, false, 0, 0)
    {
      this.engine, this.same := engine, same;
      filter, pattern, usePattern := SearchFilter("", false, false, false, false, 0, 0), "", false;
    }

    method SetSearchFilter(f: SearchFilter)
      modifies this
      ensures Valid() && filter == f
    {
      hide Trim, RegexOf;
      filter := f;
      var text := Trim(f.text);
      usePattern := false;
      if text != "" && (f.regex || f.glob) {
        var expr := text;
        if !f.regex {
          expr := GlobToRegex(text);
        }
        pattern := expr;
        usePattern := engine.valid(expr);
      }
    }

    method FilterAcceptsRow(r: Row) returns (accepted: bool)
      requires Valid()
      ensures accepted <==> BoundsAccept(filter, r) && NameAccepted(engine, same, filter, r.name)
    {
      if filter.onlyComplete && r.completeSourceCount == 0 {
        return false;
      }
      if filter.minSources > 0 && r.sourceCount < filter.minSources {
        return false;
      }
      if filter.maxSources > 0 && r.sourceCount > filter.maxSources {
        return false;
      }
      var text := Trim(filter.text);
      if text != "" {
        var found := if usePattern then engine.hasMatch(pattern, r.name) else Contains(r.name, text, same);
        if filter.negate {
          found := !found;
        }
        if !found {
          return false;
        }
      }
      return true;
    }
  }

  /** A glob filter never falls back to substrings: a name is accepted exactly when the glob matches
      all of it, or exactly when it does not if the filter is negated. Wildcards stop at line breaks
      and a final one is overlooked, which matters only for names with a line break. */
  lemma {:induction false} GlobFilterMeansGlob(engine: Engine, same: Folding, f: SearchFilter, name: string)
    requires Faithful(engine, same)
    requires f.glob && !f.regex && Trim(f.text) != ""
    ensures engine.valid(Expression(f))
    ensures
      var n, glob := |name|, Trim(f.text);
      NameAccepted(engine, same, f, name) <==>
        (|| GlobMatches(glob, name, same, false)
         || (n > 0 && name[n - 1] == '\n' && GlobMatches(glob, name[..n - 1], same, false))) != f.negate
    ensures '\n' !in name ==> (NameAccepted(engine, same, f, name) <==> GlobMatches(Trim(f.text), name, same, true) != f.negate)
  {
    hide GlobMatches, ParseRegex, HasMatch, RegexOf, Trim;
    GlobMeansRegex(Trim(f.text), name, same);
    if '\n' !in name {
      BreaksDoNotMatter(Trim(f.text), name, same);
    }
  }

  /** `part` is `text`, character by character up to case. */
  ghost predicate EqualUpToCase(text: string, part: string, same: Folding) {
    |part| == |text| && forall k :: 0 <= k < |text| ==> same(text[k], part[k])
  }

  /** The other name filters: a blank text accepts every name. A regular expression is tried as it is,
      glob or not, if it is valid. Everything else looks for the text, trimmed, somewhere in the name. */
  lemma {:induction false} OtherFilters(engine: Engine, same: Folding, f: SearchFilter, name: string)
    ensures Trim(f.text) == "" ==> NameAccepted(engine, same, f, name)
    ensures Trim(f.text) != "" && f.regex && engine.valid(Trim(f.text)) ==>
              (NameAccepted(engine, same, f, name) <==> engine.hasMatch(Trim(f.text), name) != f.negate)
    ensures Trim(f.text) != "" && (if f.regex then !engine.valid(Trim(f.text)) else !f.glob) ==>
              (NameAccepted(engine, same, f, name) <==>
                 (exists a, part, b :: name == a + part + b && EqualUpToCase(Trim(f.text), part, same)) != f.negate)
  {
    hide Trim, RegexOf;
    ContainsMeans(name, Trim(f.text), same);
  }

  lemma {:induction false} ContainsMeans(name: string, text: string, same: Folding)
    ensures Contains(name, text, same) <==> exists a, part, b :: name == a + part + b && EqualUpToCase(text, part, same)
  {
    if i :| 0 <= i <= |name| && EqualAt(text, name, i, same) {
      var a, part, b := name[..i], name[i..i + |text|], name[i + |text|..];
      assert name == a + part + b && EqualUpToCase(text, part, same);
    }
    if a, part, b :| name == a + part + b && EqualUpToCase(text, part, same) {
      assert forall k :: 0 <= k < |part| ==> name[|a| + k] == part[k];
      assert EqualAt(text, name, |a|, same);
    }
  }

  /** The bounds: at least `minSources`, at most `maxSources` unless that is 0, and a complete source if
      only complete results are wanted. */
  lemma {:induction false} BoundsMean(f: SearchFilter, r: Row)
    ensures BoundsAccept(f, r) <==>
              && f.minSources <= r.sourceCount
              && (f.maxSources == 0 || r.sourceCount <= f.maxSources)
              && (r.completeSourceCount > 0 || !f.onlyComplete)
  {
  }

  // ---------------------------------------------------------------- Sorting

  type Less = (int, int) -> bool

  /** The anchored source rows, whether anchoring is on, and the direction of the view's sort. */
  datatype Sorting = Sorting(anchored: set<int>, enabled: bool, ascending: bool)

  /** `lessThan`, over the comparison of the sorted column. */
  predicate LessThan(v: Sorting, base: Less, left: int, right: int) {
    if v.enabled && (left in v.anchored) != (right in v.anchored) then (left in v.anchored) == v.ascending
    else base(left, right)
  }

  /** The view swaps the arguments when it sorts in descending order. */
  predicate ShownBefore(v: Sorting, base: Less, a: int, b: int) {
    if v.ascending then LessThan(v, base, a, b) else LessThan(v, base, b, a)
  }

  /** The order in which the view puts the rows, and the one of the column alone. */
  function ViewOrder(v: Sorting, base: Less): Less {
    (a, b) => ShownBefore(v, base, a, b)
  }

  function ColumnOrder(v: Sorting, base: Less): Less {
    (a, b) => if v.ascending then base(a, b) else base(b, a)
  }

  ghost predicate StrictWeakOrder(less: Less) {
    && (forall a :: !less(a, a))
    && (forall a, b :: less(a, b) ==> !less(b, a))
    && (forall a, b, c :: less(a, b) ==> less(a, c) || less(c, b))
  }

  /** Sorting never puts a row in front of one that comes before it. */
  ghost predicate Sorted(before: Less, rows: seq<int>) {
    forall i, j :: 0 <= i < j < |rows| ==> !before(rows[j], rows[i])
  }

  /** Anchoring keeps the comparison a strict weak order, as sorting needs, in both directions. */
  lemma {:induction false} AnchoredIsStrictWeak(v: Sorting, base: Less)
    requires StrictWeakOrder(base)
    ensures StrictWeakOrder((a, b) => LessThan(v, base, a, b))
    ensures StrictWeakOrder(ViewOrder(v, base))
  {
    var less: Less := (a, b) => LessThan(v, base, a, b);
    var before := ViewOrder(v, base);
    forall a, b, c | less(a, b) ensures !less(b, a) && (less(a, c) || less(c, b)) {
      assert base(a, b) ==> base(a, c) || base(c, b);
    }
    forall a, b, c | before(a, b) ensures !before(b, a) && (before(a, c) || before(c, b)) {
      if v.ascending {
        assert less(a, b);
      } else {
        assert less(b, a) && (less(b, c) || less(c, a));
      }
    }
  }

  /** The first `k` rows are the anchored ones, and both parts are sorted by the column alone. */
  ghost predicate SplitAt(v: Sorting, base: Less, rows: seq<int>, k: nat) {
    && k <= |rows|
    && (forall i :: 0 <= i < |rows| ==> (rows[i] in v.anchored <==> i < k))
    && Sorted(ColumnOrder(v, base), rows[..k])
    && Sorted(ColumnOrder(v, base), rows[k..])
  }

  /** The rows are sorted with anchoring exactly when the anchored ones stand in front of all others
      and each of the two groups is sorted by the column alone, in either direction. */
  lemma {:induction false} AnchoredRowsOnTop(v: Sorting, base: Less, rows: seq<int>)
    requires v.enabled
    ensures Sorted(ViewOrder(v, base), rows) <==> exists k: nat :: SplitAt(v, base, rows, k)
  {
    var view, column := ViewOrder(v, base), ColumnOrder(v, base);
    if Sorted(view, rows) {
      var k := AnchoredPrefix(v, base, rows);
      forall i, j | 0 <= i < j < k ensures !column(rows[..k][j], rows[..k][i]) {
        assert !view(rows[j], rows[i]);
      }
      forall i, j | 0 <= i < j < |rows| - k ensures !column(rows[k..][j], rows[k..][i]) {
        assert !view(rows[k + j], rows[k + i]);
      }
      assert SplitAt(v, base, rows, k);
    }
    if k: nat :| SplitAt(v, base, rows, k) {
      forall i, j | 0 <= i < j < |rows| ensures !view(rows[j], rows[i]) {
        if j < k {
          assert !column(rows[..k][j], rows[..k][i]);
        } else if k <= i {
          assert !column(rows[k..][j - k], rows[k..][i - k]);
        }
      }
    }
  }

  lemma {:induction false} AnchoredPrefix(v: Sorting, base: Less, rows: seq<int>) returns (k: nat)
    requires v.enabled && Sorted(ViewOrder(v, base), rows)
    ensures k <= |rows| && forall i :: 0 <= i < |rows| ==> (rows[i] in v.anchored <==> i < k)
  {
    if rows == [] {
      k := 0;
    } else {
      var front, last := rows[..|rows| - 1], rows[|rows| - 1];
      k := AnchoredPrefix(v, base, front);
      if last in v.anchored {
        forall i | 0 <= i < |front| ensures front[i] in v.anchored {
          assert !ViewOrder(v, base)(rows[|front|], rows[i]);
        }
        k := |rows|;
      }
    }
  }

  /** Without anchoring, or if all rows or none are anchored, the rows are sorted exactly when they are
      sorted by the column alone: no row stands behind one that the column puts after it, seen in the
      direction of the sort. */
  lemma {:induction false} UnanchoredIsColumn(v: Sorting, base: Less, rows: seq<int>)
    requires !v.enabled || forall i, j :: 0 <= i < j < |rows| ==> (rows[i] in v.anchored <==> rows[j] in v.anchored)
    ensures Sorted(ViewOrder(v, base), rows) <==>
              forall i, j :: 0 <= i < j < |rows| ==> if v.ascending then !base(rows[j], rows[i]) else !base(rows[i], rows[j])
    ensures Sorted(ViewOrder(v, base), rows) <==> Sorted(ColumnOrder(v, base), rows)
  {
    var view, column := ViewOrder(v, base), ColumnOrder(v, base);
    forall i, j | 0 <= i < j < |rows|
      ensures view(rows[j], rows[i]) <==> column(rows[j], rows[i])
      ensures column(rows[j], rows[i]) <==> if v.ascending then base(rows[j], rows[i]) else base(rows[i], rows[j])
    {
    }
  }
}
