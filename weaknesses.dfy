/**
 * The "most common weaknesses" part of the admin report: every weakness of every stored
 * analysis is counted in a map that remembers first-insertion order, the entries are sorted
 * by count, highest first, with a stable sort, and the first five are kept.
 */
module Weaknesses {
  import opened Common
  import opened Records

  /** All weaknesses of all analyses, in log order. */
  function AllWeaknesses(reports: seq<Report>): (all: seq<string>)
    ensures |reports| == 0 ==> all == []
  {
    if |reports| == 0 then []
    else AllWeaknesses(reports[..|reports| - 1]) + reports[|reports| - 1].weaknesses
  }

  /** The number of occurrences of `w` in `s`. */
  function Occurrences(s: seq<string>, w: string): (n: nat)
    ensures n <= |s|
    ensures n > 0 <==> w in s
  {
    if |s| == 0 then 0
    else
      assert s == s[..|s| - 1] + [s[|s| - 1]];
      Occurrences(s[..|s| - 1], w) + (if s[|s| - 1] == w then 1 else 0)
  }

  predicate NoDuplicates<T(==)>(s: seq<T>) {
    forall i, j :: 0 <= i < j < |s| ==> s[i] != s[j]
  }

  /** The distinct elements of `s` in the order of their first occurrence. */
  function Distinct(s: seq<string>): (d: seq<string>)
    ensures forall x :: x in d <==> x in s
    ensures NoDuplicates(d)
  {
    if |s| == 0 then []
    else
      assert s == s[..|s| - 1] + [s[|s| - 1]];
      var d := Distinct(s[..|s| - 1]);
      if s[|s| - 1] in d then d else d + [s[|s| - 1]]
  }

  /** Counting one more element. */
  lemma OccurrencesSnoc(s: seq<string>, x: string, w: string)
    ensures Occurrences(s + [x], w) == Occurrences(s, w) + (if x == w then 1 else 0)
  {
    assert (s + [x])[..|s|] == s;
  }

  /** An element seen before leaves the distinct elements alone; a new one goes at the end. */
  lemma DistinctSnoc(s: seq<string>, x: string)
    ensures Distinct(s + [x]) == if x in Distinct(s) then Distinct(s) else Distinct(s) + [x]
  {
    assert (s + [x])[..|s|] == s;
  }

  /** `order` and `counts` are the insertion order and the contents of the counting map after `seen`. */
  ghost predicate CountsOf(order: seq<string>, counts: map<string, nat>, seen: seq<string>) {
    && order == Distinct(seen)
    && (forall w :: w in counts <==> w in order)
    && (forall w :: w in counts ==> counts[w] == Occurrences(seen, w))
  }

  /** A weakness already in the map gets its count raised by one. */
  lemma CountSeen(order: seq<string>, counts: map<string, nat>, seen: seq<string>, w: string)
    requires CountsOf(order, counts, seen)
    requires w in counts
    ensures CountsOf(order, counts[w := counts[w] + 1], seen + [w])
  {
    DistinctSnoc(seen, w);
    forall v | v in counts
      ensures counts[w := counts[w] + 1][v] == Occurrences(seen + [w], v)
    {
      OccurrencesSnoc(seen, w, v);
    }
  }

  /** A weakness not yet in the map is added with count 1, at the end of the insertion order. */
  lemma CountNew(order: seq<string>, counts: map<string, nat>, seen: seq<string>, w: string)
    requires CountsOf(order, counts, seen)
    requires w !in counts
    ensures CountsOf(order + [w], counts[w := 1], seen + [w])
  {
    DistinctSnoc(seen, w);
    forall v | v in counts[w := 1]
      ensures counts[w := 1][v] == Occurrences(seen + [w], v)
    {
      OccurrencesSnoc(seen, w, v);
    }
  }

  /** Adds one analysis's weaknesses to the counting map, one at a time. */
  method AddWeaknesses(order0: seq<string>, counts0: map<string, nat>, ws: seq<string>, ghost seen: seq<string>)
    returns (order: seq<string>, counts: map<string, nat>)
    requires CountsOf(order0, counts0, seen)
    ensures CountsOf(order, counts, seen + ws)
  {
    order, counts := order0, counts0;
    var j := 0;
    assert seen + ws[..0] == seen;
    while j < |ws|
      invariant 0 <= j <= |ws|
      invariant CountsOf(order, counts, seen + ws[..j])
    {
      var w := ws[j];
      ghost var before := seen + ws[..j];
      assert seen + ws[..j + 1] == before + [w];
      if w in counts {
        CountSeen(order, counts, before, w);
        counts := counts[w := counts[w] + 1];
      } else {
        CountNew(order, counts, before, w);
        counts := counts[w := 1];
        order := order + [w];
      }
      j := j + 1;
    }
    assert ws[..|ws|] == ws;
  }

  /**
   * Counts the weakness occurrences the way the server does, analysis by analysis;
   * `order` is the insertion order of the counting map.
   */
  method CountWeaknesses(reports: seq<Report>) returns (order: seq<string>, counts: map<string, nat>)
    ensures order == Distinct(AllWeaknesses(reports))
    ensures forall w :: w in counts <==> w in order
    ensures forall w :: w in counts ==> counts[w] == Occurrences(AllWeaknesses(reports), w)
  {
    order := [];
    counts := map[];
    var i := 0;
    while i < |reports|
      invariant 0 <= i <= |reports|
      invariant CountsOf(order, counts, AllWeaknesses(reports[..i]))
    {
      assert reports[..i + 1][..i] == reports[..i];
      assert AllWeaknesses(reports[..i + 1]) == AllWeaknesses(reports[..i]) + reports[i].weaknesses;
      order, counts := AddWeaknesses(order, counts, reports[i].weaknesses, AllWeaknesses(reports[..i]));
      i := i + 1;
    }
    assert reports[..|reports|] == reports;
  }

  /** Counts never increase along `es`. */
  predicate NonIncreasing(es: seq<WeaknessCount>) {
    forall i, j :: 0 <= i < j < |es| ==> es[i].count >= es[j].count
  }

  /** Inserts `e` after every entry whose count is at least `e`'s. */
  function InsertByCount(e: WeaknessCount, s: seq<WeaknessCount>): (r: seq<WeaknessCount>)
    ensures multiset(r) == multiset(s) + multiset{e}
  {
    if |s| == 0 then [e]
    else if s[0].count >= e.count then
      assert s == [s[0]] + s[1..];
      [s[0]] + InsertByCount(e, s[1..])
    else [e] + s
  }

  /** Inserting an entry no larger than `b` into entries no larger than `b` gives entries no larger than `b`. */
  lemma {:induction false} InsertBounded(e: WeaknessCount, s: seq<WeaknessCount>, b: nat)
    requires e.count <= b
    requires forall i :: 0 <= i < |s| ==> s[i].count <= b
    ensures forall i :: 0 <= i < |InsertByCount(e, s)| ==> InsertByCount(e, s)[i].count <= b
  {
    if |s| > 0 && s[0].count >= e.count {
      InsertBounded(e, s[1..], b);
    }
  }

  lemma NonIncreasingTail(s: seq<WeaknessCount>)
    requires |s| > 0 && NonIncreasing(s)
    ensures NonIncreasing(s[1..])
    ensures forall i :: 0 <= i < |s| ==> s[i].count <= s[0].count
  {
    forall i, j | 0 <= i < j < |s| - 1 ensures s[1..][i].count >= s[1..][j].count {
      assert s[1..][i] == s[i + 1] && s[1..][j] == s[j + 1];
    }
    forall i | 0 < i < |s| ensures s[i].count <= s[0].count {
      assert 0 < i;
    }
  }

  /** Putting an entry in front of sorted entries no larger than it keeps them sorted. */
  lemma ConsKeepsOrder(x: WeaknessCount, t: seq<WeaknessCount>)
    requires NonIncreasing(t)
    requires forall i :: 0 <= i < |t| ==> t[i].count <= x.count
    ensures NonIncreasing([x] + t)
  {
    var r := [x] + t;
    forall i, j | 0 <= i < j < |r|
      ensures r[i].count >= r[j].count
    {
      assert r[j] == t[j - 1];
      if i > 0 {
        assert r[i] == t[i - 1];
      }
    }
  }

  /** Inserting into a sorted sequence keeps it sorted. */
  lemma {:induction false} InsertKeepsOrder(e: WeaknessCount, s: seq<WeaknessCount>)
    requires NonIncreasing(s)
    ensures NonIncreasing(InsertByCount(e, s))
  {
    if |s| > 0 {
      NonIncreasingTail(s);
      if s[0].count >= e.count {
        InsertKeepsOrder(e, s[1..]);
        InsertBounded(e, s[1..], s[0].count);
        ConsKeepsOrder(s[0], InsertByCount(e, s[1..]));
      } else {
        ConsKeepsOrder(e, s);
      }
    }
  }

  /**
   * The stable sort by count, highest first, that the server's comparator b.count - a.count
   * asks of the array sort: each entry is inserted after all earlier entries that are not smaller.
   */
  function SortByCount(es: seq<WeaknessCount>): (r: seq<WeaknessCount>)
    ensures multiset(r) == multiset(es)
    ensures NonIncreasing(r)
  {
    if |es| == 0 then []
    else
      assert es == es[..|es| - 1] + [es[|es| - 1]];
      var sorted := SortByCount(es[..|es| - 1]);
      InsertKeepsOrder(es[|es| - 1], sorted);
      InsertByCount(es[|es| - 1], sorted)
  }

  /** The entries of `s` with count `c`, in order. */
  function WithCount(s: seq<WeaknessCount>, c: nat): seq<WeaknessCount> {
    if |s| == 0 then []
    else (if s[0].count == c then [s[0]] else []) + WithCount(s[1..], c)
  }

  lemma {:induction false} WithCountAppend(a: seq<WeaknessCount>, b: seq<WeaknessCount>, c: nat)
    ensures WithCount(a + b, c) == WithCount(a, c) + WithCount(b, c)
  {
    if |a| == 0 {
      assert a + b == b;
    } else {
      assert (a + b)[0] == a[0];
      assert (a + b)[1..] == a[1..] + b;
      WithCountAppend(a[1..], b, c);
    }
  }

  lemma {:induction false} WithCountBelow(s: seq<WeaknessCount>, c: nat)
    requires forall i :: 0 <= i < |s| ==> s[i].count < c
    ensures WithCount(s, c) == []
  {
    if |s| > 0 {
      WithCountBelow(s[1..], c);
    }
  }

  lemma WithCountCons(x: WeaknessCount, t: seq<WeaknessCount>, c: nat)
    ensures WithCount([x] + t, c) == (if x.count == c then [x] else []) + WithCount(t, c)
  {
    assert ([x] + t)[0] == x;
    assert ([x] + t)[1..] == t;
  }

  /** Putting the same entry in front of two sequences keeps their ties related. */
  lemma ConsTies(x: WeaknessCount, a: seq<WeaknessCount>, b: seq<WeaknessCount>, tie: seq<WeaknessCount>, c: nat)
    requires WithCount(a, c) == WithCount(b, c) + tie
    ensures WithCount([x] + a, c) == WithCount([x] + b, c) + tie
  {
    WithCountCons(x, a, c);
    WithCountCons(x, b, c);
    var front := if x.count == c then [x] else [];
    assert front + (WithCount(b, c) + tie) == (front + WithCount(b, c)) + tie;
  }

  /** An entry larger than every entry of a sorted sequence comes after all of that sequence's ties. */
  lemma FrontTies(e: WeaknessCount, s: seq<WeaknessCount>, c: nat)
    requires NonIncreasing(s) && |s| > 0 && s[0].count < e.count
    ensures WithCount([e] + s, c) == WithCount(s, c) + (if e.count == c then [e] else [])
  {
    WithCountCons(e, s, c);
    if e.count == c {
      NonIncreasingTail(s);
      WithCountBelow(s, c);
      assert [e] + [] == [] + [e];
    } else {
      assert [] + WithCount(s, c) == WithCount(s, c) + [];
    }
  }

  /** Inserting behind a head that is not smaller leaves the head in front. */
  lemma InsertBehindHead(e: WeaknessCount, s: seq<WeaknessCount>, c: nat)
    requires |s| > 0 && s[0].count >= e.count
    requires WithCount(InsertByCount(e, s[1..]), c) == WithCount(s[1..], c) + (if e.count == c then [e] else [])
    ensures WithCount(InsertByCount(e, s), c) == WithCount(s, c) + (if e.count == c then [e] else [])
  {
    var t := InsertByCount(e, s[1..]);
    assert InsertByCount(e, s) == [s[0]] + t;
    ConsTies(s[0], t, s[1..], if e.count == c then [e] else [], c);
    assert [s[0]] + s[1..] == s;
  }

  lemma {:induction false} InsertKeepsTies(e: WeaknessCount, s: seq<WeaknessCount>, c: nat)
    requires NonIncreasing(s)
    ensures WithCount(InsertByCount(e, s), c) == WithCount(s, c) + (if e.count == c then [e] else [])
  {
    if |s| == 0 {
      WithCountCons(e, [], c);
      assert [e] + [] == [e];
    } else if s[0].count >= e.count {
      NonIncreasingTail(s);
      InsertKeepsTies(e, s[1..], c);
      InsertBehindHead(e, s, c);
    } else {
      assert InsertByCount(e, s) == [e] + s;
      FrontTies(e, s, c);
    }
  }

  /** The sort inserts the last entry into the sorted other entries. */
  lemma SortByCountSnoc(init: seq<WeaknessCount>, last: WeaknessCount)
    ensures SortByCount(init + [last]) == InsertByCount(last, SortByCount(init))
  {
    assert (init + [last])[..|init|] == init;
  }

  /** The sort is stable: for every count, the entries with that count keep their input order. */
  lemma {:induction false} SortByCountIsStable(es: seq<WeaknessCount>, c: nat)
    ensures WithCount(SortByCount(es), c) == WithCount(es, c)
  {
    if |es| > 0 {
      var init, last := es[..|es| - 1], es[|es| - 1];
      assert es == init + [last];
      SortByCountSnoc(init, last);
      SortByCountIsStable(init, c);
      InsertKeepsTies(last, SortByCount(init), c);
      WithCountAppend(init, [last], c);
      WithCountCons(last, [], c);
    }
  }

  /** An element at two positions occurs at least twice. */
  lemma DuplicateCountsTwice(b: seq<WeaknessCount>, i: nat, j: nat)
    requires i < j < |b| && b[i] == b[j]
    ensures multiset(b)[b[i]] >= 2
  {
    var x := b[i];
    assert b[..j][i] == x;
    assert b[j..][0] == x;
    assert b == b[..j] + b[j..];
    assert multiset(b) == multiset(b[..j]) + multiset(b[j..]);
  }

  /** A permutation of a sequence without duplicates has none either. */
  lemma PermutationKeepsNoDuplicates(a: seq<WeaknessCount>, b: seq<WeaknessCount>)
    requires multiset(a) == multiset(b)
    requires NoDuplicates(a)
    ensures NoDuplicates(b)
  {
    forall i, j | 0 <= i < j < |b|
      ensures b[i] != b[j]
    {
      if b[i] == b[j] {
        DuplicateCountsTwice(b, i, j);
        MultiplicityAtMostOne(a, b[i]);
      }
    }
  }

  lemma {:induction false} MultiplicityAtMostOne(a: seq<WeaknessCount>, x: WeaknessCount)
    requires NoDuplicates(a)
    ensures multiset(a)[x] <= 1
  {
    if |a| > 0 {
      assert a == [a[0]] + a[1..];
      MultiplicityAtMostOne(a[1..], x);
      if a[0] == x {
        assert x !in a[1..];
      }
    }
  }

  /** One entry per key, with its number of occurrences in `all`. */
  function Tally(keys: seq<string>, all: seq<string>): (es: seq<WeaknessCount>)
    ensures |es| == |keys|
    ensures forall i :: 0 <= i < |keys| ==> es[i] == WeaknessCount(keys[i], Occurrences(all, keys[i]))
  {
    seq(|keys|, i requires 0 <= i < |keys| => WeaknessCount(keys[i], Occurrences(all, keys[i])))
  }

  /** The `topWeaknesses` list of the admin report. */
  function TopWeaknesses(reports: seq<Report>): seq<WeaknessCount> {
    var all := AllWeaknesses(reports);
    var sorted := SortByCount(Tally(Distinct(all), all));
    sorted[..Min(5, |sorted|)]
  }

  /** Builds `topWeaknesses` from the counting loops, the sort and the cut to five entries. */
  method RankWeaknesses(reports: seq<Report>) returns (top: seq<WeaknessCount>)
    ensures top == TopWeaknesses(reports)
    ensures |top| <= 5
  {
    var order, counts := CountWeaknesses(reports);
    var entries := seq(|order|, i requires 0 <= i < |order| => WeaknessCount(order[i], counts[order[i]]));
    assert entries == Tally(order, AllWeaknesses(reports));
    var sorted := SortByCount(entries);
    top := sorted[..Min(5, |sorted|)];
  }

  /** The sorted entries are the tally, one entry per distinct weakness. */
  lemma SortedTallyFacts(all: seq<string>)
    ensures var es := Tally(Distinct(all), all);
      var sorted := SortByCount(es);
      && |sorted| == |Distinct(all)|
      && NoDuplicates(sorted)
      && (forall x :: x in sorted <==> x in es)
  {
    var es := Tally(Distinct(all), all);
    var sorted := SortByCount(es);
    assert |multiset(sorted)| == |multiset(es)|;
    forall x
      ensures x in sorted <==> x in es
    {
      assert x in sorted <==> x in multiset(sorted);
      assert x in es <==> x in multiset(es);
    }
    PermutationKeepsNoDuplicates(es, sorted);
  }

  /** An entry of the tally names a weakness that occurs and carries its number of occurrences. */
  lemma TallyEntry(all: seq<string>, x: WeaknessCount)
    requires x in Tally(Distinct(all), all)
    ensures x.weakness in all && x.count == Occurrences(all, x.weakness)
  {
  }

  /**
   * What `topWeaknesses` promises: at most five entries, highest count first, each count the
   * total number of occurrences of a weakness that occurs.
   */
  lemma TopWeaknessesCounts(reports: seq<Report>)
    ensures var top, all := TopWeaknesses(reports), AllWeaknesses(reports);
      && |top| == Min(5, |Distinct(all)|)
      && NonIncreasing(top)
      && (forall i :: 0 <= i < |top| ==> top[i].weakness in all && top[i].count == Occurrences(all, top[i].weakness))
  {
    var all := AllWeaknesses(reports);
    var sorted := SortByCount(Tally(Distinct(all), all));
    SortedTallyFacts(all);
    forall i | 0 <= i < Min(5, |sorted|)
      ensures sorted[i].weakness in all && sorted[i].count == Occurrences(all, sorted[i].weakness)
    {
      TallyEntry(all, sorted[i]);
    }
  }

  /** No weakness appears twice in `topWeaknesses`. */
  lemma TopWeaknessesDistinct(reports: seq<Report>)
    ensures var top := TopWeaknesses(reports);
      forall i, j :: 0 <= i < j < |top| ==> top[i].weakness != top[j].weakness
  {
    var all := AllWeaknesses(reports);
    var sorted := SortByCount(Tally(Distinct(all), all));
    SortedTallyFacts(all);
    forall i, j | 0 <= i < j < Min(5, |sorted|)
      ensures sorted[i].weakness != sorted[j].weakness
    {
      TallyEntry(all, sorted[i]);
      TallyEntry(all, sorted[j]);
    }
  }

  /** An entry that a sort of `es` leaves out of its first five is no larger than the fifth. */
  lemma LeftOutIsSmaller(es: seq<WeaknessCount>, sorted: seq<WeaknessCount>, x: WeaknessCount)
    requires multiset(sorted) == multiset(es) && NonIncreasing(sorted)
    requires x in es
    requires forall i :: 0 <= i < Min(5, |sorted|) ==> sorted[i].weakness != x.weakness
    ensures |sorted| > 5 && x.count <= sorted[4].count
  {
    assert x in multiset(es);
    assert x in sorted;
    var m :| 0 <= m < |sorted| && sorted[m] == x;
    assert m >= Min(5, |sorted|);
  }

  /** A weakness left out of `topWeaknesses` occurs no more often than the fifth entry. */
  lemma TopWeaknessesAreTop(reports: seq<Report>, w: string)
    requires w in AllWeaknesses(reports)
    requires forall i :: 0 <= i < |TopWeaknesses(reports)| ==> TopWeaknesses(reports)[i].weakness != w
    ensures |TopWeaknesses(reports)| == 5
    ensures Occurrences(AllWeaknesses(reports), w) <= TopWeaknesses(reports)[4].count
  {
    var all := AllWeaknesses(reports);
    var keys := Distinct(all);
    var es := Tally(keys, all);
    var sorted := SortByCount(es);
    var top := TopWeaknesses(reports);
    assert top == sorted[..Min(5, |sorted|)];
    var k :| 0 <= k < |keys| && keys[k] == w;
    assert es[k] == WeaknessCount(w, Occurrences(all, w));
    forall i | 0 <= i < Min(5, |sorted|)
      ensures sorted[i].weakness != w
    {
      assert sorted[i] == top[i];
    }
    LeftOutIsSmaller(es, sorted, es[k]);
  }

  /** The entries of the report with equal counts appear in the order the weaknesses were first seen. */
  lemma TopWeaknessesTiesInFirstSeenOrder(reports: seq<Report>, c: nat)
    ensures var all := AllWeaknesses(reports);
      WithCount(SortByCount(Tally(Distinct(all), all)), c) == WithCount(Tally(Distinct(all), all), c)
  {
    var all := AllWeaknesses(reports);
    SortByCountIsStable(Tally(Distinct(all), all), c);
  }
}
