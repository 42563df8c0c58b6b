/** The address-interval index of loaded modules. Addresses and timestamps are 64-bit values that do not wrap. */
module ModuleMap {

  import opened Wrappers

  datatype ModuleInfo<Data> = ModuleInfo(base: nat, size: nat, payload: Data)

  datatype Entry = Entry(loadTimestamp: nat, moduleIndex: nat)

  /** Half-open: [begin, end). `active` goes from the oldest to the newest load. */
  datatype AddressRange = AddressRange(begin: nat, end: nat, active: seq<Entry>)

  datatype Index<Data> = Index(modules: seq<ModuleInfo<Data>>, ranges: seq<AddressRange>)

  const ADDRESS_LIMIT := 0x1_0000_0000_0000_0000

  predicate Contains(r: AddressRange, a: nat) {
    r.begin <= a < r.end
  }

  predicate Sorted(active: seq<Entry>) {
    forall i, j :: 0 <= i < j < |active| ==> active[i].loadTimestamp <= active[j].loadTimestamp
  }

  predicate Separated(ranges: seq<AddressRange>) {
    forall i, j :: 0 <= i < j < |ranges| ==> ranges[i].end <= ranges[j].begin
  }

  predicate ProperRange(r: AddressRange, moduleCount: nat) {
    && r.begin < r.end && r.active != [] && Sorted(r.active)
    && forall k :: 0 <= k < |r.active| ==> r.active[k].moduleIndex < moduleCount
  }

  /** Ranges are sorted, disjoint and non-empty, and each has at least one module, the oldest load first. */
  predicate Proper(ranges: seq<AddressRange>, moduleCount: nat) {
    Separated(ranges) && forall i :: 0 <= i < |ranges| ==> ProperRange(ranges[i], moduleCount)
  }

  predicate Covered(ranges: seq<AddressRange>, a: nat) {
    exists i :: 0 <= i < |ranges| && Contains(ranges[i], a)
  }

  /** No range has an address in [lo, hi). */
  predicate Gap(ranges: seq<AddressRange>, lo: nat, hi: nat) {
    forall i :: 0 <= i < |ranges| ==> ranges[i].end <= lo || hi <= ranges[i].begin
  }

  /** The modules that the index has for an address. */
  function ListAt(ranges: seq<AddressRange>, a: nat): seq<Entry> {
    if ranges == [] then []
    else if Contains(ranges[0], a) then ranges[0].active
    else ListAt(ranges[1..], a)
  }

  lemma {:induction false} ListAtIs(ranges: seq<AddressRange>, i: nat, a: nat)
    requires Separated(ranges) && i < |ranges| && Contains(ranges[i], a)
    ensures ListAt(ranges, a) == ranges[i].active
  {
    if i > 0 {
      assert ranges[0].end <= ranges[i].begin;
      assert ranges[1..][i - 1] == ranges[i];
      ListAtIs(ranges[1..], i - 1, a);
    }
  }

  lemma {:induction false} ListAtNothing(ranges: seq<AddressRange>, a: nat)
    requires !Covered(ranges, a)
    ensures ListAt(ranges, a) == []
  {
    if ranges != [] {
      assert !Contains(ranges[0], a);
      forall i | 0 <= i < |ranges[1..]| ensures !Contains(ranges[1..][i], a) {
        assert ranges[1..][i] == ranges[i + 1];
      }
      ListAtNothing(ranges[1..], a);
    }
  }

  lemma {:induction false} ListsOfOne(ranges: seq<AddressRange>, a: nat)
    requires |ranges| == 1
    ensures ListAt(ranges, a) == if Contains(ranges[0], a) then ranges[0].active else []
  {
    assert ranges[1..] == [];
  }

  // ----- Changes to the list of ranges -------------------------------------------------

  function Spliced<T>(xs: seq<T>, i: nat, x: T): (r: seq<T>)
    requires i <= |xs|
    ensures |r| == |xs| + 1 && r[i] == x
    ensures forall k :: 0 <= k < i ==> r[k] == xs[k]
    ensures forall k :: i < k < |r| ==> r[k] == xs[k - 1]
  {
    xs[..i] + [x] + xs[i..]
  }

  lemma {:induction false} SplicedMultiset<T>(xs: seq<T>, i: nat, x: T)
    requires i <= |xs|
    ensures multiset(Spliced(xs, i, x)) == multiset(xs) + multiset{x}
  {
    assert xs == xs[..i] + xs[i..];
  }

  lemma {:induction false} SplicedProper(ranges: seq<AddressRange>, i: nat, r: AddressRange, moduleCount: nat)
    requires Proper(ranges, moduleCount) && i <= |ranges| && ProperRange(r, moduleCount)
    requires forall k :: 0 <= k < i ==> ranges[k].end <= r.begin
    requires forall k :: i <= k < |ranges| ==> r.end <= ranges[k].begin
    ensures Proper(Spliced(ranges, i, r), moduleCount)
  {
  }

  lemma {:induction false} SplicedLists(ranges: seq<AddressRange>, i: nat, r: AddressRange, a: nat)
    requires i <= |ranges| && Separated(ranges) && Separated(Spliced(ranges, i, r))
    ensures ListAt(Spliced(ranges, i, r), a) == if Contains(r, a) then r.active else ListAt(ranges, a)
    ensures Covered(Spliced(ranges, i, r), a) <==> Contains(r, a) || Covered(ranges, a)
  {
    var more := Spliced(ranges, i, r);
    SplicedCovers(ranges, i, r, a);
    if Contains(r, a) {
      ListAtIs(more, i, a);
    } else if Covered(ranges, a) {
      var k :| 0 <= k < |ranges| && Contains(ranges[k], a);
      SameList(ranges, k, more, if k < i then k else k + 1, a);
    } else {
      ListAtNothing(ranges, a);
      ListAtNothing(more, a);
    }
  }

  lemma {:induction false} SameList(ranges: seq<AddressRange>, k: nat, more: seq<AddressRange>, k': nat, a: nat)
    requires Separated(ranges) && k < |ranges| && Contains(ranges[k], a)
    requires Separated(more) && k' < |more| && Contains(more[k'], a) && more[k'].active == ranges[k].active
    ensures ListAt(more, a) == ListAt(ranges, a)
  {
    ListAtIs(ranges, k, a);
    ListAtIs(more, k', a);
  }

  lemma {:induction false} SplicedCovers(ranges: seq<AddressRange>, i: nat, r: AddressRange, a: nat)
    requires i <= |ranges|
    ensures Covered(Spliced(ranges, i, r), a) <==> Contains(r, a) || Covered(ranges, a)
  {
    var more := Spliced(ranges, i, r);
    if Contains(r, a) {
      assert Contains(more[i], a);
    } else if Covered(ranges, a) {
      var k :| 0 <= k < |ranges| && Contains(ranges[k], a);
      assert Contains(more[if k < i then k else k + 1], a);
    } else {
      forall k | 0 <= k < |more| ensures !Contains(more[k], a) {
        assert k != i ==> !Contains(ranges[if k < i then k else k - 1], a);
      }
    }
  }

  /** Range `i` cut in two at `at`, both halves with its modules. */
  function SplitAt(ranges: seq<AddressRange>, i: nat, at: nat): (r: seq<AddressRange>)
    requires i < |ranges|
    ensures |r| == |ranges| + 1 && r[i] == ranges[i].(end := at) && r[i + 1] == ranges[i].(begin := at)
    ensures forall k :: 0 <= k < i ==> r[k] == ranges[k]
    ensures forall k :: i + 1 < k < |r| ==> r[k] == ranges[k - 1]
  {
    ranges[..i] + [ranges[i].(end := at), ranges[i].(begin := at)] + ranges[i + 1..]
  }

  lemma {:induction false} SplitAtProper(ranges: seq<AddressRange>, i: nat, at: nat, moduleCount: nat)
    requires Proper(ranges, moduleCount) && i < |ranges| && ranges[i].begin < at < ranges[i].end
    ensures Proper(SplitAt(ranges, i, at), moduleCount)
  {
    var more := SplitAt(ranges, i, at);
    forall k | 0 <= k < |more| ensures ProperRange(more[k], moduleCount) {
      assert ProperRange(ranges[if k <= i then k else k - 1], moduleCount);
    }
  }

  lemma {:induction false} SplitAtLists(ranges: seq<AddressRange>, i: nat, at: nat, a: nat)
    requires i < |ranges| && ranges[i].begin < at < ranges[i].end
    requires Separated(ranges) && Separated(SplitAt(ranges, i, at))
    ensures ListAt(SplitAt(ranges, i, at), a) == ListAt(ranges, a)
  {
    var more := SplitAt(ranges, i, at);
    if Covered(ranges, a) {
      var k :| 0 <= k < |ranges| && Contains(ranges[k], a);
      SameList(ranges, k, more, if k < i || (k == i && a < at) then k else k + 1, a);
    } else {
      SplitAtCoversNoMore(ranges, i, at, a);
      ListAtNothing(ranges, a);
      ListAtNothing(more, a);
    }
  }

  lemma {:induction false} SplitAtCoversNoMore(ranges: seq<AddressRange>, i: nat, at: nat, a: nat)
    requires i < |ranges| && ranges[i].begin < at < ranges[i].end && !Covered(ranges, a)
    ensures !Covered(SplitAt(ranges, i, at), a)
  {
    var more := SplitAt(ranges, i, at);
    forall k | 0 <= k < |more| ensures !Contains(more[k], a) {
      assert !Contains(ranges[if k <= i then k else k - 1], a);
    }
  }

  /** `after` is `before` with `e` added and still sorted; equal timestamps may change places, unless `e` is newest. */
  predicate Appended(before: seq<Entry>, after: seq<Entry>, e: Entry) {
    && Sorted(after) && multiset(after) == multiset(before) + multiset{e}
    && (before == [] || before[|before| - 1].loadTimestamp <= e.loadTimestamp ==> after == before + [e])
  }

  lemma {:induction false} AppendedIsProper(r: AddressRange, after: seq<Entry>, e: Entry, moduleCount: nat)
    requires ProperRange(r, moduleCount) && Appended(r.active, after, e) && e.moduleIndex < moduleCount
    ensures ProperRange(r.(active := after), moduleCount)
  {
    assert e in multiset(after);
    forall k | 0 <= k < |after| ensures after[k].moduleIndex < moduleCount {
      assert after[k] in multiset(after);
      assert after[k] == e || after[k] in multiset(r.active);
    }
  }

  // ----- What inserting a module does --------------------------------------------------

  function EndOf<Data>(m: ModuleInfo<Data>): nat {
    m.base + m.size
  }

  predicate ProperIndex<Data>(s: Index<Data>) {
    Proper(s.ranges, |s.modules|)
  }

  /** A range that is exactly the module's interval already ends with an equal payload that is not newer. */
  predicate IsDuplicateAt<Data(==)>(s: Index<Data>, m: ModuleInfo<Data>, t: nat, i: nat)
    requires ProperIndex(s) && i < |s.ranges|
  {
    var r := s.ranges[i];
    && r.begin == m.base && r.end == EndOf(m)
    && r.active[|r.active| - 1].loadTimestamp <= t
    && s.modules[r.active[|r.active| - 1].moduleIndex].payload == m.payload
  }

  ghost predicate IsDuplicate<Data>(s: Index<Data>, m: ModuleInfo<Data>, t: nat)
    requires ProperIndex(s)
  {
    exists i :: 0 <= i < |s.ranges| && IsDuplicateAt(s, m, t, i)
  }

  function Max(a: nat, b: nat): nat { if a < b then b else a }

  function Min(a: nat, b: nat): nat { if a < b then a else b }

  /** The part of the module inside the total span of the ranges, as [ClippedBegin, ClippedEnd). */
  function ClippedBegin<Data>(ranges: seq<AddressRange>, m: ModuleInfo<Data>): nat
    requires ranges != []
  {
    Max(m.base, ranges[0].begin)
  }

  function ClippedEnd<Data>(ranges: seq<AddressRange>, m: ModuleInfo<Data>): nat
    requires ranges != []
  {
    Min(EndOf(m), ranges[|ranges| - 1].end)
  }

  predicate OutsideSpan(ranges: seq<AddressRange>, a: nat) {
    ranges == [] || a < ranges[0].begin || a >= ranges[|ranges| - 1].end
  }

  /** The addresses that get the new module: those of its interval that were covered, lay outside the old
      span, or belong to a clipped interval that overlaps nothing. */
  predicate Gains<Data>(ranges: seq<AddressRange>, m: ModuleInfo<Data>, a: nat) {
    && m.base <= a < EndOf(m)
    && (Covered(ranges, a) || OutsideSpan(ranges, a) || Gap(ranges, ClippedBegin(ranges, m), ClippedEnd(ranges, m)))
  }

  predicate GainsInside(ranges: seq<AddressRange>, lo: nat, hi: nat, a: nat) {
    lo <= a < hi && (Covered(ranges, a) || Gap(ranges, lo, hi))
  }

  predicate Updated(before: seq<Entry>, after: seq<Entry>, gains: bool, e: Entry) {
    if gains then Appended(before, after, e) else after == before
  }

  /** The exact effect of inserting `m` at time `t`. */
  ghost predicate Inserted<Data>(s: Index<Data>, s': Index<Data>, m: ModuleInfo<Data>, t: nat)
    requires ProperIndex(s)
  {
    if IsDuplicate(s, m, t) then s' == s
    else
      && s'.modules == s.modules + [m] && ProperIndex(s')
      && forall a: nat ::
           Updated(ListAt(s.ranges, a), ListAt(s'.ranges, a), Gains(s.ranges, m, a), Entry(t, |s.modules|))
  }

  /** No module in the index was loaded after `t`. */
  ghost predicate LoadedBy<Data>(s: Index<Data>, t: nat) {
    forall a: nat, e :: e in ListAt(s.ranges, a) ==> e.loadTimestamp <= t
  }

  predicate HasRange(ranges: seq<AddressRange>, lo: nat, hi: nat) {
    exists i :: 0 <= i < |ranges| && ranges[i].begin == lo && ranges[i].end == hi
  }

  /** The interval is free of ranges, or is one of them. */
  predicate IsWhole(ranges: seq<AddressRange>, lo: nat, hi: nat) {
    Gap(ranges, lo, hi) || HasRange(ranges, lo, hi)
  }

  /** A module whose interval is a range of its own is dropped when it is inserted again at the same time or later. */
  lemma {:induction false} InsertedAgainIsDropped<Data>(s: Index<Data>, s': Index<Data>, m: ModuleInfo<Data>, t: nat,
                                                        t': nat)
    requires ProperIndex(s) && m.size > 0 && Inserted(s, s', m, t) && LoadedBy(s, t)
    requires IsWhole(s.ranges, m.base, EndOf(m)) && HasRange(s'.ranges, m.base, EndOf(m)) && t <= t'
    ensures ProperIndex(s') && IsDuplicate(s', m, t')
  {
    if IsDuplicate(s, m, t) {
      var i :| 0 <= i < |s.ranges| && IsDuplicateAt(s, m, t, i);
      assert IsDuplicateAt(s', m, t', i);
    } else {
      var i :| 0 <= i < |s'.ranges| && s'.ranges[i].begin == m.base && s'.ranges[i].end == EndOf(m);
      ListAtIs(s'.ranges, i, m.base);
      var list := ListAt(s.ranges, m.base);
      WholeGains(s, m);
      assert Updated(list, ListAt(s'.ranges, m.base), Gains(s.ranges, m, m.base), Entry(t, |s.modules|));
      assert list != [] ==> list[|list| - 1] in list;
      assert IsDuplicateAt(s', m, t', i);
    }
  }

  lemma {:induction false} WholeGains<Data>(s: Index<Data>, m: ModuleInfo<Data>)
    requires ProperIndex(s) && m.size > 0 && IsWhole(s.ranges, m.base, EndOf(m))
    ensures Gains(s.ranges, m, m.base)
  {
    if HasRange(s.ranges, m.base, EndOf(m)) {
      var i :| 0 <= i < |s.ranges| && s.ranges[i].begin == m.base && s.ranges[i].end == EndOf(m);
      assert Contains(s.ranges[i], m.base);
    }
  }

  /** The ranges with the parts of `m` in front of and behind their total span added. */
  function Extended<Data>(ranges: seq<AddressRange>, m: ModuleInfo<Data>, e: Entry): seq<AddressRange>
    requires ranges != []
  {
    var last := ranges[|ranges| - 1].end;
    if last < EndOf(m) then Prepended(ranges, m, e) + [AddressRange(Max(last, m.base), EndOf(m), [e])]
    else Prepended(ranges, m, e)
  }

  function Prepended<Data>(ranges: seq<AddressRange>, m: ModuleInfo<Data>, e: Entry): (r: seq<AddressRange>)
    requires ranges != []
    ensures r != [] && r[|r| - 1] == ranges[|ranges| - 1]
  {
    if ranges[0].begin > m.base then [AddressRange(m.base, Min(ranges[0].begin, EndOf(m)), [e])] + ranges else ranges
  }

  ghost predicate ExtendedListsAt<Data>(ranges: seq<AddressRange>, m: ModuleInfo<Data>, e: Entry, a: nat)
    requires ranges != []
  {
    var added := m.base <= a < EndOf(m) && OutsideSpan(ranges, a);
    && ListAt(Extended(ranges, m, e), a) == (if added then [e] else ListAt(ranges, a))
    && (Covered(Extended(ranges, m, e), a) <==> added || Covered(ranges, a))
  }

  lemma {:induction false} SplicedAtEnds<T>(xs: seq<T>, x: T)
    ensures Spliced(xs, 0, x) == [x] + xs && Spliced(xs, |xs|, x) == xs + [x]
  {
  }

  lemma {:induction false} PrependedProper<Data>(ranges: seq<AddressRange>, m: ModuleInfo<Data>, e: Entry, n: nat)
    requires ranges != [] && m.size > 0 && Proper(ranges, n) && e.moduleIndex == n
    ensures Proper(Prepended(ranges, m, e), n + 1)
  {
    if ranges[0].begin > m.base {
      var r := AddressRange(m.base, Min(ranges[0].begin, EndOf(m)), [e]);
      SplicedProper(ranges, 0, r, n + 1);
      SplicedAtEnds(ranges, r);
    }
  }

  lemma {:induction false} ExtendedProper<Data>(ranges: seq<AddressRange>, m: ModuleInfo<Data>, e: Entry, n: nat)
    requires ranges != [] && m.size > 0 && Proper(ranges, n) && e.moduleIndex == n
    ensures Proper(Extended(ranges, m, e), n + 1)
  {
    PrependedProper(ranges, m, e, n);
    var pre := Prepended(ranges, m, e);
    var last := ranges[|ranges| - 1].end;
    if last < EndOf(m) {
      forall k | 0 <= k < |pre| ensures pre[k].end <= last {
        RangeInSpan(pre, k, n + 1);
      }
      var r := AddressRange(Max(last, m.base), EndOf(m), [e]);
      SplicedProper(pre, |pre|, r, n + 1);
      SplicedAtEnds(pre, r);
    }
  }

  lemma {:induction false} ExtendedLists<Data>(ranges: seq<AddressRange>, m: ModuleInfo<Data>, e: Entry, a: nat)
    requires ranges != [] && m.size > 0 && Proper(ranges, e.moduleIndex)
    ensures ExtendedListsAt(ranges, m, e, a)
  {
    ExtendedProper(ranges, m, e, e.moduleIndex);
    OutsideIsNotCovered(ranges, a, e.moduleIndex);
    PrependedLists(ranges, m, e, a);
    var pre := Prepended(ranges, m, e);
    var last := ranges[|ranges| - 1].end;
    if last < EndOf(m) {
      var r := AddressRange(Max(last, m.base), EndOf(m), [e]);
      SplicedAtEnds(pre, r);
      SplicedLists(pre, |pre|, r, a);
    }
  }

  lemma {:induction false} PrependedLists<Data>(ranges: seq<AddressRange>, m: ModuleInfo<Data>, e: Entry, a: nat)
    requires ranges != [] && m.size > 0 && Proper(ranges, e.moduleIndex)
    ensures Proper(Prepended(ranges, m, e), e.moduleIndex + 1)
    ensures var added := m.base <= a < EndOf(m) && a < ranges[0].begin;
            && ListAt(Prepended(ranges, m, e), a) == (if added then [e] else ListAt(ranges, a))
            && (Covered(Prepended(ranges, m, e), a) <==> added || Covered(ranges, a))
  {
    PrependedProper(ranges, m, e, e.moduleIndex);
    if ranges[0].begin > m.base {
      var r := AddressRange(m.base, Min(ranges[0].begin, EndOf(m)), [e]);
      SplicedAtEnds(ranges, r);
      SplicedLists(ranges, 0, r, a);
    }
  }

  lemma {:induction false} OutsideIsNotCovered(ranges: seq<AddressRange>, a: nat, n: nat)
    requires ranges != [] && Proper(ranges, n)
    ensures ranges[0].begin < ranges[|ranges| - 1].end
    ensures OutsideSpan(ranges, a) ==> !Covered(ranges, a)
  {
    RangeInSpan(ranges, 0, n);
    forall k | 0 <= k < |ranges| ensures Contains(ranges[k], a) ==> !OutsideSpan(ranges, a) {
      RangeInSpan(ranges, k, n);
    }
  }

  /** Inside the old span the extension changes nothing, and it adds no range equal to the whole module. */
  lemma {:induction false} ExtendedInside<Data>(ranges: seq<AddressRange>, m: ModuleInfo<Data>, e: Entry, lo: nat,
                                                hi: nat)
    requires ranges != [] && m.size > 0 && Proper(ranges, e.moduleIndex)
    requires lo == ClippedBegin(ranges, m) && hi == ClippedEnd(ranges, m) && lo < hi
    ensures var more := Extended(ranges, m, e);
            && more != [] && more[0].begin <= lo && hi <= more[|more| - 1].end
            && (Gap(more, lo, hi) <==> Gap(ranges, lo, hi))
  {
    var pre := Prepended(ranges, m, e);
    var last := ranges[|ranges| - 1].end;
    OutsideIsNotCovered(ranges, lo, e.moduleIndex);
    if ranges[0].begin > m.base {
      var r := AddressRange(m.base, Min(ranges[0].begin, EndOf(m)), [e]);
      SplicedAtEnds(ranges, r);
      GapOfSpliced(ranges, 0, r, lo, hi);
    }
    if last < EndOf(m) {
      var r := AddressRange(Max(last, m.base), EndOf(m), [e]);
      SplicedAtEnds(pre, r);
      GapOfSpliced(pre, |pre|, r, lo, hi);
    }
  }

  lemma {:induction false} GapOfSpliced(ranges: seq<AddressRange>, i: nat, r: AddressRange, lo: nat, hi: nat)
    requires i <= |ranges| && (r.end <= lo || hi <= r.begin)
    ensures Gap(Spliced(ranges, i, r), lo, hi) <==> Gap(ranges, lo, hi)
  {
    var more := Spliced(ranges, i, r);
    if Gap(more, lo, hi) {
      forall k | 0 <= k < |ranges| ensures ranges[k].end <= lo || hi <= ranges[k].begin {
        assert more[if k < i then k else k + 1] == ranges[k];
      }
    }
  }

  lemma {:induction false} ExactRangeIsOld<Data>(ranges: seq<AddressRange>, m: ModuleInfo<Data>, e: Entry, i: nat)
    requires ranges != [] && m.size > 0 && Proper(ranges, e.moduleIndex)
    requires ClippedBegin(ranges, m) < ClippedEnd(ranges, m) && i < |Extended(ranges, m, e)|
    requires Extended(ranges, m, e)[i].begin == m.base && Extended(ranges, m, e)[i].end == EndOf(m)
    ensures Extended(ranges, m, e) == ranges
  {
    var more := Extended(ranges, m, e);
    var d := if ranges[0].begin > m.base then 1 else 0;
    var k := i - d;
    if 0 <= k < |ranges| {
      assert more[i] == ranges[k];
      RangeInSpan(ranges, k, e.moduleIndex);
    }
  }

  lemma {:induction false} RangeInSpan(ranges: seq<AddressRange>, k: nat, n: nat)
    requires k < |ranges| && Proper(ranges, n)
    ensures ranges[0].begin <= ranges[k].begin < ranges[k].end <= ranges[|ranges| - 1].end
  {
    var last := |ranges| - 1;
    assert ProperRange(ranges[0], n) && ProperRange(ranges[k], n) && ProperRange(ranges[last], n);
    assert k > 0 ==> ranges[0].end <= ranges[k].begin;
    assert k < last ==> ranges[k].end <= ranges[last].begin;
  }

  lemma {:induction false} OutsideMeansInserted<Data>(s: Index<Data>, s': Index<Data>, m: ModuleInfo<Data>, t: nat)
    requires ProperIndex(s) && s.ranges != [] && m.size > 0
    requires ClippedBegin(s.ranges, m) >= ClippedEnd(s.ranges, m)
    requires s' == Index(s.modules + [m], Extended(s.ranges, m, Entry(t, |s.modules|))) && ProperIndex(s')
    requires forall a: nat :: ExtendedListsAt(s.ranges, m, Entry(t, |s.modules|), a)
    ensures Inserted(s, s', m, t)
  {
    var e := Entry(t, |s.modules|);
    forall i | 0 <= i < |s.ranges| ensures !IsDuplicateAt(s, m, t, i) {
      RangeInSpan(s.ranges, i, |s.modules|);
    }
    forall a: nat
      ensures Updated(ListAt(s.ranges, a), ListAt(s'.ranges, a), Gains(s.ranges, m, a), e)
    {
      assert ExtendedListsAt(s.ranges, m, e, a);
      OutsideIsNotCovered(s.ranges, a, |s.modules|);
      CoveredIffListed(s.ranges, a, |s.modules|);
    }
  }

  lemma {:induction false} InsideMeansInserted<Data>(s: Index<Data>, s1: Index<Data>, s': Index<Data>,
                                                     m: ModuleInfo<Data>, t: nat)
    requires ProperIndex(s) && s.ranges != [] && m.size > 0
    requires ClippedBegin(s.ranges, m) < ClippedEnd(s.ranges, m)
    requires s1 == Index(s.modules + [m], Extended(s.ranges, m, Entry(t, |s.modules|))) && ProperIndex(s1)
    requires !IsDuplicate(s1, m, t) && ProperIndex(s') && s'.modules == s1.modules
    requires forall a: nat :: ExtendedListsAt(s.ranges, m, Entry(t, |s.modules|), a)
    requires forall a: nat :: Updated(ListAt(s1.ranges, a), ListAt(s'.ranges, a),
               GainsInside(s1.ranges, ClippedBegin(s.ranges, m), ClippedEnd(s.ranges, m), a), Entry(t, |s.modules|))
    ensures Inserted(s, s', m, t)
  {
    var e := Entry(t, |s.modules|);
    ExtendedInside(s.ranges, m, e, ClippedBegin(s.ranges, m), ClippedEnd(s.ranges, m));
    forall i | 0 <= i < |s.ranges| ensures !IsDuplicateAt(s, m, t, i) {
      DuplicateIsInside(s, s1, m, t, i);
    }
    forall a: nat ensures Updated(ListAt(s.ranges, a), ListAt(s'.ranges, a), Gains(s.ranges, m, a), e) {
      assert ExtendedListsAt(s.ranges, m, e, a);
      InsideAt(s.ranges, m, e, s'.ranges, a);
    }
  }

  /** Extending the span and then inserting what is inside it is the whole effect. */
  lemma {:induction false} StepsMeanInserted<Data>(s: Index<Data>, s1: Index<Data>, s': Index<Data>,
                                                   m: ModuleInfo<Data>, t: nat)
    requires ProperIndex(s) && s.ranges != [] && m.size > 0
    requires s1 == Index(s.modules + [m], Extended(s.ranges, m, Entry(t, |s.modules|))) && ProperIndex(s1)
    requires var lo, hi := ClippedBegin(s.ranges, m), ClippedEnd(s.ranges, m);
             if lo >= hi then s' == s1
             else if IsDuplicate(s1, m, t) then s' == Index(s.modules, s1.ranges)
             else && ProperIndex(s') && s'.modules == s1.modules
                  && forall a: nat :: Updated(ListAt(s1.ranges, a), ListAt(s'.ranges, a),
                                              GainsInside(s1.ranges, lo, hi, a), Entry(t, |s.modules|))
    ensures ProperIndex(s') && Inserted(s, s', m, t)
  {
    var e := Entry(t, |s.modules|);
    forall a: nat ensures ExtendedListsAt(s.ranges, m, e, a) { ExtendedLists(s.ranges, m, e, a); }
    if ClippedBegin(s.ranges, m) >= ClippedEnd(s.ranges, m) {
      OutsideMeansInserted(s, s', m, t);
    } else if IsDuplicate(s1, m, t) {
      DuplicateMeansUnchanged(s, s1, m, t);
    } else {
      InsideMeansInserted(s, s1, s', m, t);
    }
  }

  lemma {:induction false} DuplicateMeansUnchanged<Data>(s: Index<Data>, s1: Index<Data>, m: ModuleInfo<Data>, t: nat)
    requires ProperIndex(s) && s.ranges != [] && m.size > 0
    requires ClippedBegin(s.ranges, m) < ClippedEnd(s.ranges, m)
    requires s1 == Index(s.modules + [m], Extended(s.ranges, m, Entry(t, |s.modules|))) && ProperIndex(s1)
    requires IsDuplicate(s1, m, t)
    ensures IsDuplicate(s, m, t) && s1.ranges == s.ranges
  {
    var i :| 0 <= i < |s1.ranges| && IsDuplicateAt(s1, m, t, i);
    ExactRangeIsOld(s.ranges, m, Entry(t, |s.modules|), i);
    SameDuplicate(s, s1, m, t, i, i);
  }

  lemma {:induction false} SameDuplicate<Data>(s: Index<Data>, s1: Index<Data>, m: ModuleInfo<Data>, t: nat, i: nat,
                                               k: nat)
    requires ProperIndex(s) && ProperIndex(s1) && s1.modules == s.modules + [m]
    requires i < |s.ranges| && k < |s1.ranges| && s1.ranges[k] == s.ranges[i]
    ensures IsDuplicateAt(s, m, t, i) == IsDuplicateAt(s1, m, t, k)
  {
    assert ProperRange(s.ranges[i], |s.modules|);
  }

  lemma {:induction false} InsideAt<Data>(ranges: seq<AddressRange>, m: ModuleInfo<Data>, e: Entry,
                                          after: seq<AddressRange>, a: nat)
    requires ranges != [] && m.size > 0 && Proper(ranges, e.moduleIndex)
    requires ClippedBegin(ranges, m) < ClippedEnd(ranges, m)
    requires ExtendedListsAt(ranges, m, e, a)
    requires Gap(Extended(ranges, m, e), ClippedBegin(ranges, m), ClippedEnd(ranges, m)) <==>
             Gap(ranges, ClippedBegin(ranges, m), ClippedEnd(ranges, m))
    requires Updated(ListAt(Extended(ranges, m, e), a), ListAt(after, a),
                     GainsInside(Extended(ranges, m, e), ClippedBegin(ranges, m), ClippedEnd(ranges, m), a), e)
    ensures Updated(ListAt(ranges, a), ListAt(after, a), Gains(ranges, m, a), e)
  {
    OutsideIsNotCovered(ranges, a, e.moduleIndex);
    CoveredIffListed(ranges, a, e.moduleIndex);
  }

  lemma {:induction false} DuplicateIsInside<Data>(s: Index<Data>, s1: Index<Data>, m: ModuleInfo<Data>, t: nat, i: nat)
    requires ProperIndex(s) && s.ranges != [] && i < |s.ranges|
    requires s1 == Index(s.modules + [m], Extended(s.ranges, m, Entry(t, |s.modules|))) && ProperIndex(s1)
    requires !IsDuplicate(s1, m, t)
    ensures !IsDuplicateAt(s, m, t, i)
  {
    var k := if s.ranges[0].begin > m.base then i + 1 else i;
    assert s1.ranges[k] == s.ranges[i];
    SameDuplicate(s, s1, m, t, i, k);
  }

  // ----- Looking an address up ---------------------------------------------------------

  /** The newest entry loaded at `t` or before. */
  function Latest(active: seq<Entry>, t: nat): (r: Option<Entry>)
    ensures r.Some? ==> r.value in active && r.value.loadTimestamp <= t
  {
    if active == [] then None
    else if active[|active| - 1].loadTimestamp <= t then Some(active[|active| - 1])
    else Latest(active[..|active| - 1], t)
  }

  /** A lenient search falls back to the oldest entry. */
  function Chosen(active: seq<Entry>, t: nat, strict: bool): (r: Option<Entry>)
    ensures r.Some? ==> r.value in active
  {
    if Latest(active, t).None? && !strict && active != [] then Some(active[0]) else Latest(active, t)
  }

  function Found<Data>(s: Index<Data>, address: nat, t: nat, strict: bool): Option<(ModuleInfo<Data>, nat)>
    requires ProperIndex(s)
  {
    ListIsProper(s.ranges, address, |s.modules|);
    match Chosen(ListAt(s.ranges, address), t, strict)
    case None => None
    case Some(e) => Some((s.modules[e.moduleIndex], e.loadTimestamp))
  }

  lemma {:induction false} ListIsProper(ranges: seq<AddressRange>, a: nat, n: nat)
    requires Proper(ranges, n)
    ensures Sorted(ListAt(ranges, a)) && forall e :: e in ListAt(ranges, a) ==> e.moduleIndex < n
  {
    if Covered(ranges, a) {
      var k :| 0 <= k < |ranges| && Contains(ranges[k], a);
      ListAtIs(ranges, k, a);
    } else {
      ListAtNothing(ranges, a);
    }
  }

  // ----- Agreement with the log of loads -----------------------------------------------

  datatype Load<Data> = Load(m: ModuleInfo<Data>, timestamp: nat)

  function PayloadAt<Data>(s: Index<Data>, a: nat, t: nat): Option<Data>
    requires ProperIndex(s)
  {
    match Found(s, a, t, true)
    case None => None
    case Some(found) => Some(found.0.payload)
  }

  /** Reference: the payload of the last inserted module that contains the address and was loaded by `t`. */
  function Scan<Data>(log: seq<Load<Data>>, a: nat, t: nat): Option<Data> {
    if log == [] then None
    else
      var l := log[|log| - 1];
      if l.m.base <= a < EndOf(l.m) && l.timestamp <= t then Some(l.m.payload) else Scan(log[..|log| - 1], a, t)
  }

  ghost predicate Agrees<Data>(s: Index<Data>, log: seq<Load<Data>>) {
    ProperIndex(s) && forall a: nat, t: nat :: PayloadAt(s, a, t) == Scan(log, a, t)
  }

  /** The clipped interval is free of ranges or completely covered by them. */
  ghost predicate NoPartialGap<Data>(ranges: seq<AddressRange>, m: ModuleInfo<Data>) {
    || ranges == []
    || Gap(ranges, ClippedBegin(ranges, m), ClippedEnd(ranges, m))
    || forall a: nat :: ClippedBegin(ranges, m) <= a < ClippedEnd(ranges, m) ==> Covered(ranges, a)
  }

  lemma {:induction false} FoundOfAppended<Data>(s: Index<Data>, s': Index<Data>, m: ModuleInfo<Data>, a: nat,
                                                 t0: nat, t: nat)
    requires ProperIndex(s) && ProperIndex(s') && s'.modules == s.modules + [m]
    requires ListAt(s'.ranges, a) == ListAt(s.ranges, a) + [Entry(t0, |s.modules|)]
    ensures Found(s', a, t, true) == if t0 <= t then Some((m, t0)) else Found(s, a, t, true)
  {
    ListIsProper(s.ranges, a, |s.modules|);
    var list := ListAt(s'.ranges, a);
    assert list[..|list| - 1] == ListAt(s.ranges, a);
  }

  lemma {:induction false} FoundUnchanged<Data>(s: Index<Data>, s': Index<Data>, m: ModuleInfo<Data>, a: nat, t: nat)
    requires ProperIndex(s) && ProperIndex(s') && s'.modules == s.modules + [m]
    requires ListAt(s'.ranges, a) == ListAt(s.ranges, a)
    ensures Found(s', a, t, true) == Found(s, a, t, true)
  {
    ListIsProper(s.ranges, a, |s.modules|);
  }

  lemma {:induction false} ScanOfMore<Data>(log: seq<Load<Data>>, l: Load<Data>, a: nat, t: nat)
    ensures Scan(log + [l], a, t) == if l.m.base <= a < EndOf(l.m) && l.timestamp <= t then Some(l.m.payload)
                                     else Scan(log, a, t)
  {
    assert (log + [l])[..|log|] == log;
  }

  /** A dropped duplicate changes no answer. */
  lemma {:induction false} DroppedDuplicateAgrees<Data>(s: Index<Data>, log: seq<Load<Data>>, m: ModuleInfo<Data>,
                                                        t: nat)
    requires Agrees(s, log) && LoadedBy(s, t) && IsDuplicate(s, m, t)
    ensures Agrees(s, log + [Load(m, t)])
  {
    var i :| 0 <= i < |s.ranges| && IsDuplicateAt(s, m, t, i);
    forall a: nat, u: nat ensures PayloadAt(s, a, u) == Scan(log + [Load(m, t)], a, u) {
      ScanOfMore(log, Load(m, t), a, u);
      if m.base <= a < EndOf(m) && t <= u {
        DuplicateAnswers(s, m, t, i, a, u);
      }
    }
  }

  lemma {:induction false} DuplicateAnswers<Data>(s: Index<Data>, m: ModuleInfo<Data>, t: nat, i: nat, a: nat, u: nat)
    requires ProperIndex(s) && i < |s.ranges| && IsDuplicateAt(s, m, t, i) && Contains(s.ranges[i], a) && t <= u
    ensures PayloadAt(s, a, u) == Some(m.payload)
  {
    ListAtIs(s.ranges, i, a);
    ListIsProper(s.ranges, a, |s.modules|);
  }

  /** Inserting in the order of load times keeps the agreement exactly when the clipped interval has no partly
      covered gap, or the insert is dropped as a duplicate. */
  lemma {:induction false} InsertKeepsAgreementExactlyWithoutPartialGap<Data>(
      s: Index<Data>, s': Index<Data>, log: seq<Load<Data>>, m: ModuleInfo<Data>, t: nat)
    requires Agrees(s, log) && LoadedBy(s, t) && m.size > 0 && Inserted(s, s', m, t)
    ensures LoadedBy(s', t)
    ensures Agrees(s', log + [Load(m, t)]) <==> IsDuplicate(s, m, t) || NoPartialGap(s.ranges, m)
  {
    if IsDuplicate(s, m, t) {
      DroppedDuplicateAgrees(s, log, m, t);
    } else {
      forall a: nat
        ensures Gains(s.ranges, m, a) ==> ListAt(s'.ranges, a) == ListAt(s.ranges, a) + [Entry(t, |s.modules|)]
      {
        assert Updated(ListAt(s.ranges, a), ListAt(s'.ranges, a), Gains(s.ranges, m, a), Entry(t, |s.modules|));
        GainedLast(s, a, t);
      }
      LoadedByKept(s, s', m, t);
      if NoPartialGap(s.ranges, m) {
        forall a: nat, u: nat ensures PayloadAt(s', a, u) == Scan(log + [Load(m, t)], a, u) {
          AnswerAfterInsert(s, s', log, m, t, a, u);
        }
      } else {
        PartialGapDisagrees(s, s', log, m, t);
      }
    }
  }

  lemma {:induction false} GainedLast<Data>(s: Index<Data>, a: nat, t: nat)
    requires LoadedBy(s, t)
    ensures var list := ListAt(s.ranges, a); list == [] || list[|list| - 1].loadTimestamp <= t
  {
    var list := ListAt(s.ranges, a);
    if list != [] {
      assert list[|list| - 1] in list;
    }
  }

  lemma {:induction false} LoadedByKept<Data>(s: Index<Data>, s': Index<Data>, m: ModuleInfo<Data>, t: nat)
    requires ProperIndex(s) && LoadedBy(s, t) && Inserted(s, s', m, t) && !IsDuplicate(s, m, t)
    requires forall a: nat :: Gains(s.ranges, m, a) ==>
             ListAt(s'.ranges, a) == ListAt(s.ranges, a) + [Entry(t, |s.modules|)]
    ensures LoadedBy(s', t)
  {
    forall a: nat, e | e in ListAt(s'.ranges, a) ensures e.loadTimestamp <= t {
      assert Updated(ListAt(s.ranges, a), ListAt(s'.ranges, a), Gains(s.ranges, m, a), Entry(t, |s.modules|));
      assert e in ListAt(s.ranges, a) || e == Entry(t, |s.modules|);
    }
  }

  lemma {:induction false} AnswerAfterInsert<Data>(s: Index<Data>, s': Index<Data>, log: seq<Load<Data>>,
                                                   m: ModuleInfo<Data>, t: nat, a: nat, u: nat)
    requires Agrees(s, log) && LoadedBy(s, t) && Inserted(s, s', m, t) && !IsDuplicate(s, m, t)
    requires NoPartialGap(s.ranges, m)
    ensures PayloadAt(s', a, u) == Scan(log + [Load(m, t)], a, u)
  {
    assert Updated(ListAt(s.ranges, a), ListAt(s'.ranges, a), Gains(s.ranges, m, a), Entry(t, |s.modules|));
    GainedLast(s, a, t);
    ScanOfMore(log, Load(m, t), a, u);
    if m.base <= a < EndOf(m) {
      assert Gains(s.ranges, m, a);
      FoundOfAppended(s, s', m, a, t, u);
    } else {
      FoundUnchanged(s, s', m, a, u);
    }
  }

  lemma {:induction false} PartialGapDisagrees<Data>(s: Index<Data>, s': Index<Data>, log: seq<Load<Data>>,
                                                     m: ModuleInfo<Data>, t: nat)
    requires Agrees(s, log) && Inserted(s, s', m, t) && !IsDuplicate(s, m, t) && !NoPartialGap(s.ranges, m)
    ensures !Agrees(s', log + [Load(m, t)])
  {
    var a: nat :| ClippedBegin(s.ranges, m) <= a < ClippedEnd(s.ranges, m) && !Covered(s.ranges, a);
    assert !Gains(s.ranges, m, a);
    assert Updated(ListAt(s.ranges, a), ListAt(s'.ranges, a), Gains(s.ranges, m, a), Entry(t, |s.modules|));
    ListAtNothing(s.ranges, a);
    ScanOfMore(log, Load(m, t), a, t);
    assert PayloadAt(s', a, t) == None;
  }

  /** A partly covered gap does occur: the third module spans the gap between the first two, and address 15 gets
      nothing. */
  lemma {:induction false} PartialGapExample(s': Index<nat>)
    requires Inserted(Index([ModuleInfo(0, 10, 1), ModuleInfo(20, 10, 2)],
                            [AddressRange(0, 10, [Entry(1, 0)]), AddressRange(20, 30, [Entry(2, 1)])]),
                      s', ModuleInfo(5, 20, 3), 3)
    ensures ProperIndex(s') && PayloadAt(s', 15, 3) == None
    ensures Scan([Load(ModuleInfo(0, 10, 1), 1), Load(ModuleInfo(20, 10, 2), 2), Load(ModuleInfo(5, 20, 3), 3)], 15, 3)
            == Some(3)
  {
    var s := Index([ModuleInfo(0, 10, 1), ModuleInfo(20, 10, 2)],
                   [AddressRange(0, 10, [Entry(1, 0)]), AddressRange(20, 30, [Entry(2, 1)])]);
    var m := ModuleInfo(5, 20, 3);
    assert !IsDuplicate(s, m, 3);
    assert !Covered(s.ranges, 15) && Contains(s.ranges[0], 5);
    assert !Gap(s.ranges, 5, 25);
    assert Updated(ListAt(s.ranges, 15), ListAt(s'.ranges, 15), Gains(s.ranges, m, 15), Entry(3, 2));
    ListAtNothing(s.ranges, 15);
  }

  /** `states` is a run of inserts of the loads of `log`, starting from the empty index. */
  ghost predicate InsertRun<Data>(states: seq<Index<Data>>, log: seq<Load<Data>>) {
    && |states| == |log| + 1 && states[0] == Index([], [])
    && forall i :: 0 <= i < |log| ==> ProperIndex(states[i]) && log[i].m.size > 0
                                      && Inserted(states[i], states[i + 1], log[i].m, log[i].timestamp)
  }

  ghost predicate InLoadOrder<Data>(log: seq<Load<Data>>) {
    forall i, j :: 0 <= i < j < |log| ==> log[i].timestamp <= log[j].timestamp
  }

  /** A run of inserts without partly covered gaps. */
  ghost predicate GapFreeRun<Data>(states: seq<Index<Data>>, log: seq<Load<Data>>) {
    && InsertRun(states, log)
    && forall i :: 0 <= i < |log| ==>
         IsDuplicate(states[i], log[i].m, log[i].timestamp) || NoPartialGap(states[i].ranges, log[i].m)
  }

  /** Such a run in load order. */
  ghost predicate AgreeingRun<Data>(states: seq<Index<Data>>, log: seq<Load<Data>>) {
    GapFreeRun(states, log) && InLoadOrder(log)
  }

  /** Over every run of inserts in load order without partly covered gaps the index answers as the log does. */
  lemma {:induction false} IndexAgreesWithLog<Data>(states: seq<Index<Data>>, log: seq<Load<Data>>)
    requires AgreeingRun(states, log)
    ensures Agrees(states[|log|], log)
    ensures log != [] ==> LoadedBy(states[|log|], log[|log| - 1].timestamp)
  {
    hide Inserted, NoPartialGap, IsDuplicate;
    if log != [] {
      var n := |log| - 1;
      var earlier := log[..n];
      IndexAgreesWithLog(states[..n + 1], earlier);
      assert states[..n + 1][n] == states[n];
      var l := log[n];
      if n == 0 {
        assert LoadedBy(states[0], l.timestamp);
      } else {
        assert earlier[n - 1] == log[n - 1];
        assert LoadedBy(states[n], l.timestamp);
      }
      InsertKeepsAgreementExactlyWithoutPartialGap(states[n], states[n + 1], earlier, l.m, l.timestamp);
      assert log == earlier + [Load(l.m, l.timestamp)];
    }
  }

  // ----- Which load is found -----------------------------------------------------------

  /** The insert of load `j` was dropped as a duplicate. */
  ghost predicate Dropped<Data>(states: seq<Index<Data>>, log: seq<Load<Data>>, j: nat) {
    j < |log| && j < |states| && ProperIndex(states[j]) && IsDuplicate(states[j], log[j].m, log[j].timestamp)
  }

  predicate IsOf<Data>(l: Load<Data>, a: nat) {
    l.m.base <= a < EndOf(l.m)
  }

  /** Load `j` is of a module that holds the address, and was not dropped. */
  ghost predicate IsKept<Data>(states: seq<Index<Data>>, log: seq<Load<Data>>, j: nat, a: nat) {
    j < |log| && IsOf(log[j], a) && !Dropped(states, log, j)
  }

  lemma {:induction false} KeptOfMore<Data>(states: seq<Index<Data>>, log: seq<Load<Data>>, l: Load<Data>, j: nat,
                                            a: nat)
    requires j < |log|
    ensures IsKept(states, log + [l], j, a) <==> IsKept(states, log, j, a)
  {
    hide IsDuplicate, ProperIndex;
  }

  ghost predicate IsOfKept<Data>(states: seq<Index<Data>>, log: seq<Load<Data>>, s: Index<Data>, a: nat, e: Entry) {
    && e.moduleIndex < |s.modules|
    && exists i: nat :: IsKept(states, log, i, a) && log[i] == Load(s.modules[e.moduleIndex], e.loadTimestamp)
  }

  /** Every entry for the address is a kept load of it. */
  ghost predicate EntriesAreKept<Data>(states: seq<Index<Data>>, log: seq<Load<Data>>, s: Index<Data>, a: nat) {
    forall e :: e in ListAt(s.ranges, a) ==> IsOfKept(states, log, s, a, e)
  }

  ghost predicate HasEntry<Data>(s: Index<Data>, a: nat, t: nat) {
    exists e :: e in ListAt(s.ranges, a) && e.loadTimestamp == t
  }

  /** Every kept load of the address has an entry for it. */
  ghost predicate KeptHaveEntries<Data>(states: seq<Index<Data>>, log: seq<Load<Data>>, s: Index<Data>, a: nat) {
    forall j: nat :: IsKept(states, log, j, a) ==> HasEntry(s, a, log[j].timestamp)
  }

  lemma {:induction false} StaysOfKept<Data>(states: seq<Index<Data>>, log: seq<Load<Data>>, l: Load<Data>,
                                             s: Index<Data>, s': Index<Data>, a: nat, e: Entry)
    requires IsOfKept(states, log, s, a, e) && s.modules <= s'.modules
    ensures IsOfKept(states, log + [l], s', a, e)
  {
    hide Dropped;
    var i: nat :| IsKept(states, log, i, a) && log[i] == Load(s.modules[e.moduleIndex], e.loadTimestamp);
    KeptOfMore(states, log, l, i, a);
  }

  lemma {:induction false} InsertKeepsEntries<Data>(states: seq<Index<Data>>, log: seq<Load<Data>>, n: nat,
                                                    s': Index<Data>, l: Load<Data>, a: nat)
    requires |log| == n < |states| && ProperIndex(states[n])
    requires EntriesAreKept(states, log, states[n], a) && Inserted(states[n], s', l.m, l.timestamp)
    ensures EntriesAreKept(states, log + [l], s', a)
  {
    var s := states[n];
    forall e | e in ListAt(s'.ranges, a) ensures IsOfKept(states, log + [l], s', a, e) {
      if IsDuplicate(s, l.m, l.timestamp) {
        StaysOfKept(states, log, l, s, s', a, e);
      } else {
        var added := Entry(l.timestamp, |s.modules|);
        assert Updated(ListAt(s.ranges, a), ListAt(s'.ranges, a), Gains(s.ranges, l.m, a), added);
        assert e in multiset(ListAt(s'.ranges, a));
        if e in ListAt(s.ranges, a) {
          StaysOfKept(states, log, l, s, s', a, e);
        } else {
          assert e == added && (log + [l])[n] == Load(l.m, l.timestamp);
          assert IsKept(states, log + [l], n, a);
        }
      }
    }
  }

  lemma {:induction false} InsertKeepsKept<Data>(states: seq<Index<Data>>, log: seq<Load<Data>>, n: nat,
                                                 s': Index<Data>, l: Load<Data>, a: nat)
    requires |log| == n < |states| && ProperIndex(states[n])
    requires KeptHaveEntries(states, log, states[n], a) && Inserted(states[n], s', l.m, l.timestamp)
    requires IsDuplicate(states[n], l.m, l.timestamp) || NoPartialGap(states[n].ranges, l.m)
    ensures KeptHaveEntries(states, log + [l], s', a)
  {
    var s := states[n];
    forall j: nat | IsKept(states, log + [l], j, a) ensures HasEntry(s', a, (log + [l])[j].timestamp) {
      if j < n {
        KeptOfMore(states, log, l, j, a);
        assert HasEntry(s, a, log[j].timestamp);
        EntryStays(s, s', l.m, l.timestamp, a, log[j].timestamp);
      } else {
        var e := Entry(l.timestamp, |s.modules|);
        assert Updated(ListAt(s.ranges, a), ListAt(s'.ranges, a), Gains(s.ranges, l.m, a), e);
        assert Gains(s.ranges, l.m, a);
        assert e in multiset(ListAt(s'.ranges, a));
      }
    }
  }

  lemma {:induction false} EntryStays<Data>(s: Index<Data>, s': Index<Data>, m: ModuleInfo<Data>, t: nat, a: nat,
                                            u: nat)
    requires ProperIndex(s) && Inserted(s, s', m, t) && HasEntry(s, a, u)
    ensures HasEntry(s', a, u)
  {
    var e :| e in ListAt(s.ranges, a) && e.loadTimestamp == u;
    if !IsDuplicate(s, m, t) {
      assert Updated(ListAt(s.ranges, a), ListAt(s'.ranges, a), Gains(s.ranges, m, a), Entry(t, |s.modules|));
      assert e in multiset(ListAt(s.ranges, a));
      assert e in multiset(ListAt(s'.ranges, a));
    }
  }

  lemma {:induction false} RunEntries<Data>(states: seq<Index<Data>>, log: seq<Load<Data>>, n: nat, a: nat)
    requires InsertRun(states, log) && n <= |log|
    ensures ProperIndex(states[n]) && EntriesAreKept(states, log[..n], states[n], a)
    ensures GapFreeRun(states, log) ==> KeptHaveEntries(states, log[..n], states[n], a)
  {
    if n == 0 {
      assert ListAt([], a) == [];
    } else {
      RunEntries(states, log, n - 1, a);
      assert log[..n] == log[..n - 1] + [log[n - 1]];
      hide NoPartialGap, IsDuplicate, EntriesAreKept, KeptHaveEntries;
      InsertKeepsEntries(states, log[..n - 1], n - 1, states[n], log[n - 1], a);
      if GapFreeRun(states, log) { InsertKeepsKept(states, log[..n - 1], n - 1, states[n], log[n - 1], a); }
    }
  }

  /** Over every run of inserts, whatever is found is one of the loads that were not dropped, with its own interval and
      load time, and holds the address; a strict search finds none from behind the time asked for. */
  lemma {:induction false} FoundIsLoaded<Data>(states: seq<Index<Data>>, log: seq<Load<Data>>, a: nat, t: nat,
                                               strict: bool)
    requires InsertRun(states, log)
    ensures ProperIndex(states[|log|])
    ensures match Found(states[|log|], a, t, strict)
            case None => true
            case Some((m, u)) =>
              (exists i: nat :: IsKept(states, log, i, a) && log[i] == Load(m, u)) && (strict ==> u <= t)
  {
    RunEntries(states, log, |log|, a);
    assert log[..|log|] == log;
    hide InsertRun, IsKept;
    var s := states[|log|];
    ListIsProper(s.ranges, a, |s.modules|);
    var e := Chosen(ListAt(s.ranges, a), t, strict);
    if e.Some? { assert IsOfKept(states, log, s, a, e.value); }
  }

  /** Load `i` holds the address by the time, was not dropped, and no such load is newer. */
  ghost predicate IsNewestKept<Data>(states: seq<Index<Data>>, log: seq<Load<Data>>, i: nat, a: nat, t: nat) {
    && IsKept(states, log, i, a) && log[i].timestamp <= t
    && forall j: nat :: IsKept(states, log, j, a) && log[j].timestamp <= t ==> log[j].timestamp <= log[i].timestamp
  }

  ghost predicate FindsNewestKept<Data>(states: seq<Index<Data>>, log: seq<Load<Data>>,
                                        found: Option<(ModuleInfo<Data>, nat)>, a: nat, t: nat)
  {
    match found
    case None => forall j: nat :: IsKept(states, log, j, a) ==> log[j].timestamp > t
    case Some((m, u)) => exists i: nat :: IsNewestKept(states, log, i, a, t) && log[i] == Load(m, u)
  }

  lemma {:induction false} LatestIsNewest(active: seq<Entry>, t: nat, e: Entry)
    requires Sorted(active) && e in active && e.loadTimestamp <= t
    ensures Latest(active, t).Some? && e.loadTimestamp <= Latest(active, t).value.loadTimestamp
  {
    if active[|active| - 1].loadTimestamp > t {
      assert e in active[..|active| - 1];
      LatestIsNewest(active[..|active| - 1], t, e);
    }
  }

  /** Over every run of inserts without partly covered gaps, in whatever order of load times: a strict search finds the
      newest of the loads that hold the address by then and were not dropped, and nothing exactly when there is none. */
  lemma {:induction false} FoundIsNewestKept<Data>(states: seq<Index<Data>>, log: seq<Load<Data>>, a: nat, t: nat)
    requires GapFreeRun(states, log)
    ensures ProperIndex(states[|log|])
    ensures FindsNewestKept(states, log, Found(states[|log|], a, t, true), a, t)
  {
    RunEntries(states, log, |log|, a);
    assert log[..|log|] == log;
    hide GapFreeRun, InsertRun, IsKept;
    var s := states[|log|];
    ListIsProper(s.ranges, a, |s.modules|);
    var list := ListAt(s.ranges, a);
    forall j: nat | IsKept(states, log, j, a) && log[j].timestamp <= t
      ensures Latest(list, t).Some? && log[j].timestamp <= Latest(list, t).value.loadTimestamp
    {
      assert HasEntry(s, a, log[j].timestamp);
      var e :| e in list && e.loadTimestamp == log[j].timestamp;
      LatestIsNewest(list, t, e);
    }
    if Latest(list, t).Some? {
      var e := Latest(list, t).value;
      assert IsOfKept(states, log, s, a, e);
      var i: nat :| IsKept(states, log, i, a) && log[i] == Load(s.modules[e.moduleIndex], e.loadTimestamp);
      assert IsNewestKept(states, log, i, a, t);
    }
  }

  /** `found` is not older than any load of the address, and nothing only if there is none. */
  ghost predicate IsOldest<Data>(log: seq<Load<Data>>, found: Option<(ModuleInfo<Data>, nat)>, a: nat) {
    forall j: nat :: j < |log| && IsOf(log[j], a) ==> found.Some? && found.value.1 <= log[j].timestamp
  }

  lemma {:induction false} DuplicateFound<Data>(s: Index<Data>, m: ModuleInfo<Data>, t: nat, a: nat, u: nat)
    requires ProperIndex(s) && IsDuplicate(s, m, t) && m.base <= a < EndOf(m) && t <= u
    ensures Found(s, a, u, true).Some? && Found(s, a, u, true).value.0.payload == m.payload
  {
    var i :| 0 <= i < |s.ranges| && IsDuplicateAt(s, m, t, i);
    DuplicateAnswers(s, m, t, i, a, u);
  }

  /** A dropped load had an older one of its address that was kept. */
  lemma {:induction false} DroppedHasOlder<Data>(states: seq<Index<Data>>, log: seq<Load<Data>>, j: nat, a: nat)
    returns (i: nat)
    requires InsertRun(states, log) && Dropped(states, log, j) && IsOf(log[j], a)
    ensures IsKept(states, log, i, a) && log[i].timestamp <= log[j].timestamp
    ensures log[i].m.payload == log[j].m.payload
  {
    var l := log[j];
    DuplicateFound(states[j], l.m, l.timestamp, a, l.timestamp);
    RunEntries(states, log, j, a);
    ListIsProper(states[j].ranges, a, |states[j].modules|);
    hide InsertRun, IsKept, Dropped, IsDuplicate;
    var e := Latest(ListAt(states[j].ranges, a), l.timestamp).value;
    assert IsOfKept(states, log[..j], states[j], a, e);
    i :| IsKept(states, log[..j], i, a) && log[..j][i] == Load(states[j].modules[e.moduleIndex], e.loadTimestamp);
    KeptOfPrefix(states, log, j, i, a);
  }

  lemma {:induction false} KeptOfPrefix<Data>(states: seq<Index<Data>>, log: seq<Load<Data>>, n: nat, i: nat, a: nat)
    requires n <= |log| && IsKept(states, log[..n], i, a)
    ensures IsKept(states, log, i, a) && log[i] == log[..n][i]
  {
    hide IsDuplicate, ProperIndex;
  }

  /** A lenient search finds what a strict one does, and where that is nothing, the oldest load of the address. */
  lemma {:induction false} LenientFindsOldest<Data>(states: seq<Index<Data>>, log: seq<Load<Data>>, a: nat, t: nat)
    requires GapFreeRun(states, log)
    ensures ProperIndex(states[|log|])
    ensures var strictly, leniently := Found(states[|log|], a, t, true), Found(states[|log|], a, t, false);
            if strictly.Some? then leniently == strictly else IsOldest(log, leniently, a)
  {
    RunEntries(states, log, |log|, a);
    assert log[..|log|] == log;
    var s := states[|log|];
    ListIsProper(s.ranges, a, |s.modules|);
    var list := ListAt(s.ranges, a);
    forall j: nat | j < |log| && IsOf(log[j], a) ensures list != [] && list[0].loadTimestamp <= log[j].timestamp {
      var i := j;
      if Dropped(states, log, j) { i := DroppedHasOlder(states, log, j, a); }
      hide GapFreeRun, InsertRun, Dropped;
      assert HasEntry(s, a, log[i].timestamp);
    }
  }

  // ----- Duplicates that were dropped --------------------------------------------------

  predicate HoldsAt<Data>(l: Load<Data>, a: nat, t: nat) {
    IsOf(l, a) && l.timestamp <= t
  }

  /** No load of the address by the time, dropped ones included, is newer than what is found and has another payload. */
  ghost predicate NewestWins<Data>(log: seq<Load<Data>>, found: Option<(ModuleInfo<Data>, nat)>, a: nat, t: nat) {
    forall j: nat :: j < |log| && HoldsAt(log[j], a, t) ==>
      found.Some? && (log[j].timestamp <= found.value.1 || log[j].m.payload == found.value.0.payload)
  }

  /** The dropped load `j` is forgotten because of the kept load `k`, which is older, has another payload, and is the
      newest one by then. */
  ghost predicate Hides<Data>(states: seq<Index<Data>>, log: seq<Load<Data>>, k: nat, j: nat, a: nat) {
    && Dropped(states, log, j) && IsOf(log[j], a) && IsNewestKept(states, log, k, a, log[j].timestamp)
    && log[k].timestamp < log[j].timestamp && log[k].m.payload != log[j].m.payload
  }

  /** No two kept loads of the address have the same time. The order of equal times is open in the program. */
  ghost predicate NoTies<Data>(states: seq<Index<Data>>, log: seq<Load<Data>>, a: nat) {
    forall i: nat, j: nat :: IsKept(states, log, i, a) && IsKept(states, log, j, a) && i != j ==>
      log[i].timestamp != log[j].timestamp
  }

  lemma {:induction false} NewestWinsUnlessHidden<Data>(states: seq<Index<Data>>, log: seq<Load<Data>>, a: nat, t: nat)
    requires GapFreeRun(states, log) && forall k: nat, j: nat :: !Hides(states, log, k, j, a)
    ensures ProperIndex(states[|log|]) && NewestWins(log, Found(states[|log|], a, t, true), a, t)
  {
    FoundIsNewestKept(states, log, a, t);
    var found := Found(states[|log|], a, t, true);
    forall j: nat | j < |log| && HoldsAt(log[j], a, t)
      ensures found.Some? && (log[j].timestamp <= found.value.1 || log[j].m.payload == found.value.0.payload)
    {
      if Dropped(states, log, j) {
        var i := DroppedHasOlder(states, log, j, a);
        hide GapFreeRun, InsertRun, Dropped, IsKept, Found;
        var k: nat :| IsNewestKept(states, log, k, a, t) && log[k] == Load(found.value.0, found.value.1);
        assert !Hides(states, log, k, j, a);
      } else {
        assert IsKept(states, log, j, a);
      }
    }
  }

  /** Over every run of inserts without partly covered gaps: the newest load wins, dropped ones included, at all times
      if and only if no kept load hides a dropped one. */
  lemma {:induction false} NewestWinsExactlyWhenNothingHidden<Data>(states: seq<Index<Data>>, log: seq<Load<Data>>,
                                                                    a: nat)
    requires GapFreeRun(states, log) && NoTies(states, log, a)
    ensures ProperIndex(states[|log|])
    ensures (forall t: nat :: NewestWins(log, Found(states[|log|], a, t, true), a, t))
       <==> forall k: nat, j: nat :: !Hides(states, log, k, j, a)
  {
    FoundIsNewestKept(states, log, a, 0);
    if forall k: nat, j: nat :: !Hides(states, log, k, j, a) {
      forall t: nat ensures NewestWins(log, Found(states[|log|], a, t, true), a, t) {
        NewestWinsUnlessHidden(states, log, a, t);
      }
    } else {
      var k: nat, j: nat :| Hides(states, log, k, j, a);
      FoundIsNewestKept(states, log, a, log[j].timestamp);
      hide GapFreeRun, InsertRun, Dropped, IsKept, Found;
      assert HoldsAt(log[j], a, log[j].timestamp);
      assert !NewestWins(log, Found(states[|log|], a, log[j].timestamp, true), a, log[j].timestamp);
    }
  }

  const TWICE: ModuleInfo<nat> := ModuleInfo(0, 10, 1)
  const BETWEEN: ModuleInfo<nat> := ModuleInfo(0, 10, 2)

  const NOTHING_LOADED: Index<nat> := Index([], [])
  const ONE_LOADED: Index<nat> := Index([TWICE], [AddressRange(0, 10, [Entry(1, 0)])])
  const BOTH_LOADED: Index<nat> := Index([TWICE, BETWEEN], [AddressRange(0, 10, [Entry(1, 0), Entry(5, 1)])])
  const OUT_OF_ORDER: seq<Load<nat>> := [Load(TWICE, 1), Load(TWICE, 10), Load(BETWEEN, 5)]
  const STATES: seq<Index<nat>> := [NOTHING_LOADED, ONE_LOADED, ONE_LOADED, BOTH_LOADED]

  /** Loads out of order: a module is loaded at 1 and at 10, and another one is inserted behind them for 5. The second
      load was dropped, so at 12 the other module is found. */
  lemma {:induction false} HiddenExample()
    ensures InsertRun(STATES, OUT_OF_ORDER) && Hides(STATES, OUT_OF_ORDER, 2, 1, 5)
    ensures ProperIndex(BOTH_LOADED) && Found(BOTH_LOADED, 5, 12, true) == Some((BETWEEN, 5))
  {
    FirstInserted();
    DroppedSecond();
    BetweenInserted();
    hide Inserted, Found, IsDuplicate, ProperIndex;
    assert Dropped(STATES, OUT_OF_ORDER, 1) && !Dropped(STATES, OUT_OF_ORDER, 0) && !Dropped(STATES, OUT_OF_ORDER, 2);
    assert IsKept(STATES, OUT_OF_ORDER, 2, 5);
    assert IsNewestKept(STATES, OUT_OF_ORDER, 2, 5, 10);
  }

  lemma {:induction false} FirstInserted()
    ensures ProperIndex(NOTHING_LOADED) && Inserted(NOTHING_LOADED, ONE_LOADED, TWICE, 1)
    ensures !IsDuplicate(NOTHING_LOADED, TWICE, 1)
  {
    forall a: nat ensures Updated([], ListAt(ONE_LOADED.ranges, a), Gains([], TWICE, a), Entry(1, 0)) {
      assert [] + [Entry(1, 0)] == [Entry(1, 0)];
    }
  }

  lemma {:induction false} DroppedSecond()
    ensures ProperIndex(ONE_LOADED) && IsDuplicate(ONE_LOADED, TWICE, 10)
    ensures Inserted(ONE_LOADED, ONE_LOADED, TWICE, 10)
  {
    assert IsDuplicateAt(ONE_LOADED, TWICE, 10, 0);
  }

  lemma {:induction false} BetweenInserted()
    ensures ProperIndex(ONE_LOADED) && ProperIndex(BOTH_LOADED) && !IsDuplicate(ONE_LOADED, BETWEEN, 5)
    ensures Inserted(ONE_LOADED, BOTH_LOADED, BETWEEN, 5)
    ensures Found(BOTH_LOADED, 5, 12, true) == Some((BETWEEN, 5))
  {
    var e, e' := Entry(1, 0), Entry(5, 1);
    assert [e] + [e'] == [e, e'] && [TWICE] + [BETWEEN] == [TWICE, BETWEEN];
    forall a: nat
      ensures Updated(ListAt(ONE_LOADED.ranges, a), ListAt(BOTH_LOADED.ranges, a),
                      Gains(ONE_LOADED.ranges, BETWEEN, a), e')
    {
      assert Contains(ONE_LOADED.ranges[0], a) <==> 0 <= a < 10;
      ListsOfOne(ONE_LOADED.ranges, a);
      ListsOfOne(BOTH_LOADED.ranges, a);
    }
  }

  // ----- The last load, for loads in order ---------------------------------------------

  /** The load at `i` holds the address by the time and was not dropped. All later ones that do were dropped, and their
      payload is the same. */
  ghost predicate IsLastKept<Data>(states: seq<Index<Data>>, log: seq<Load<Data>>, i: nat, a: nat, t: nat) {
    && i < |log| && HoldsAt(log[i], a, t) && !Dropped(states, log, i)
    && forall j: nat :: i < j < |log| && HoldsAt(log[j], a, t) ==>
         Dropped(states, log, j) && log[j].m.payload == log[i].m.payload
  }

  /** What is found is the last load that holds the address by then, up to dropped duplicates, and nothing exactly
      when there is none. */
  ghost predicate FindsLastKept<Data>(states: seq<Index<Data>>, log: seq<Load<Data>>,
                                      found: Option<(ModuleInfo<Data>, nat)>, a: nat, t: nat)
  {
    match found
    case None => forall j: nat :: j < |log| ==> !HoldsAt(log[j], a, t)
    case Some((m, u)) => exists i: nat :: IsLastKept(states, log, i, a, t) && log[i] == Load(m, u)
  }

  lemma {:induction false} DroppedKeepsLastKept<Data>(states: seq<Index<Data>>, log: seq<Load<Data>>, l: Load<Data>,
                                                      found: Option<(ModuleInfo<Data>, nat)>, a: nat, t: nat)
    requires FindsLastKept(states, log, found, a, t)
    requires HoldsAt(l, a, t) ==>
               Dropped(states, log + [l], |log|) && found.Some? && l.m.payload == found.value.0.payload
    ensures FindsLastKept(states, log + [l], found, a, t)
  {
    hide HoldsAt, IsDuplicate, ProperIndex;
    var more := log + [l];
    if found.Some? {
      var i: nat :| IsLastKept(states, log, i, a, t) && log[i] == Load(found.value.0, found.value.1);
      forall j: nat | i < j < |more| && HoldsAt(more[j], a, t)
        ensures Dropped(states, more, j) && more[j].m.payload == more[i].m.payload
      {
        if j < |log| { assert Dropped(states, log, j); }
      }
      assert Dropped(states, more, i) ==> Dropped(states, log, i);
      assert IsLastKept(states, more, i, a, t);
    }
  }

  lemma {:induction false} FoundAfterInsert<Data>(s: Index<Data>, s': Index<Data>, m: ModuleInfo<Data>, t: nat,
                                                  a: nat, u: nat)
    requires ProperIndex(s) && LoadedBy(s, t) && Inserted(s, s', m, t) && !IsDuplicate(s, m, t)
    requires NoPartialGap(s.ranges, m)
    ensures ProperIndex(s')
    ensures Found(s', a, u, true) == if HoldsAt(Load(m, t), a, u) then Some((m, t)) else Found(s, a, u, true)
  {
    assert Updated(ListAt(s.ranges, a), ListAt(s'.ranges, a), Gains(s.ranges, m, a), Entry(t, |s.modules|));
    GainedLast(s, a, t);
    if m.base <= a < EndOf(m) {
      assert Gains(s.ranges, m, a);
      FoundOfAppended(s, s', m, a, t, u);
    } else {
      FoundUnchanged(s, s', m, a, u);
    }
  }

  lemma {:induction false} InsertKeepsLastKept<Data>(states: seq<Index<Data>>, log: seq<Load<Data>>, n: nat,
                                                     s': Index<Data>, l: Load<Data>, a: nat, t: nat)
    requires |log| == n < |states| && ProperIndex(states[n])
    requires FindsLastKept(states, log, Found(states[n], a, t, true), a, t)
    requires LoadedBy(states[n], l.timestamp) && Inserted(states[n], s', l.m, l.timestamp)
    requires IsDuplicate(states[n], l.m, l.timestamp) || NoPartialGap(states[n].ranges, l.m)
    ensures ProperIndex(s') && FindsLastKept(states, log + [l], Found(s', a, t, true), a, t)
  {
    var s := states[n];
    if IsDuplicate(s, l.m, l.timestamp) {
      assert s' == s;
      if HoldsAt(l, a, t) { DuplicateFound(s, l.m, l.timestamp, a, t); }
      hide FindsLastKept, Found, HoldsAt, IsDuplicate, ProperIndex;
      DroppedKeepsLastKept(states, log, l, Found(s, a, t, true), a, t);
    } else {
      FoundAfterInsert(s, s', l.m, l.timestamp, a, t);
      hide Found, Inserted, NoPartialGap, LoadedBy, HoldsAt, IsDuplicate, ProperIndex;
      if HoldsAt(l, a, t) {
        assert (log + [l])[n] == Load(l.m, l.timestamp);
        assert IsLastKept(states, log + [l], n, a, t);
      } else {
        hide FindsLastKept;
        DroppedKeepsLastKept(states, log, l, Found(s, a, t, true), a, t);
      }
    }
  }

  lemma {:induction false} PrefixAgrees<Data>(states: seq<Index<Data>>, log: seq<Load<Data>>, n: nat)
    requires AgreeingRun(states, log) && n < |log|
    ensures AgreeingRun(states[..n + 1], log[..n]) && ProperIndex(states[n]) && LoadedBy(states[n], log[n].timestamp)
  {
    hide Inserted, NoPartialGap, IsDuplicate;
    assert forall i :: 0 <= i < n ==> log[..n][i] == log[i] && states[..n + 1][i] == states[i];
    IndexAgreesWithLog(states[..n + 1], log[..n]);
    if n == 0 { assert ListAt([], 0) == []; } else { assert log[n - 1].timestamp <= log[n].timestamp; }
  }

  lemma {:induction false} PrefixFindsLastKept<Data>(states: seq<Index<Data>>, log: seq<Load<Data>>, n: nat,
                                                     a: nat, t: nat)
    requires AgreeingRun(states, log) && n <= |log|
    ensures ProperIndex(states[n]) && FindsLastKept(states, log[..n], Found(states[n], a, t, true), a, t)
  {
    if n > 0 {
      PrefixFindsLastKept(states, log, n - 1, a, t);
      PrefixAgrees(states, log, n - 1);
      assert log[..n] == log[..n - 1] + [log[n - 1]];
      hide Inserted, NoPartialGap, IsDuplicate, FindsLastKept, Found, ProperIndex;
      InsertKeepsLastKept(states, log[..n - 1], n - 1, states[n], log[n - 1], a, t);
    }
  }

  /** Over every such run: which load a strict search finds. */
  lemma {:induction false} FoundIsLastKept<Data>(states: seq<Index<Data>>, log: seq<Load<Data>>, a: nat, t: nat)
    requires AgreeingRun(states, log)
    ensures ProperIndex(states[|log|])
    ensures FindsLastKept(states, log, Found(states[|log|], a, t, true), a, t)
  {
    PrefixFindsLastKept(states, log, |log|, a, t);
    assert log[..|log|] == log;
  }

  // ----- The map object ----------------------------------------------------------------

  /** Index of the first range that begins at or behind `x`. */
  method FirstBeginAtLeast(ranges: seq<AddressRange>, x: nat) returns (i: nat)
    requires Separated(ranges) && forall k :: 0 <= k < |ranges| ==> ranges[k].begin < ranges[k].end
    ensures i <= |ranges|
    ensures forall k :: 0 <= k < i ==> ranges[k].begin < x
    ensures forall k :: i <= k < |ranges| ==> ranges[k].begin >= x
  {
    var lo, hi := 0, |ranges|;
    while lo < hi
      invariant 0 <= lo <= hi <= |ranges|
      invariant forall k :: 0 <= k < lo ==> ranges[k].begin < x
      invariant forall k :: hi <= k < |ranges| ==> ranges[k].begin >= x
    {
      var mid := (lo + hi) / 2;
      if ranges[mid].begin < x { lo := mid + 1; } else { hi := mid; }
    }
    i := lo;
  }

  /** Index of the first range that ends behind `x`. */
  method FirstEndBehind(ranges: seq<AddressRange>, x: nat) returns (i: nat)
    requires Separated(ranges) && forall k :: 0 <= k < |ranges| ==> ranges[k].begin < ranges[k].end
    ensures i <= |ranges|
    ensures forall k :: 0 <= k < i ==> ranges[k].end <= x
    ensures forall k :: i <= k < |ranges| ==> ranges[k].end > x
  {
    var lo, hi := 0, |ranges|;
    while lo < hi
      invariant 0 <= lo <= hi <= |ranges|
      invariant forall k :: 0 <= k < lo ==> ranges[k].end <= x
      invariant forall k :: hi <= k < |ranges| ==> ranges[k].end > x
    {
      var mid := (lo + hi) / 2;
      if ranges[mid].end <= x { lo := mid + 1; } else { hi := mid; }
    }
    i := lo;
  }

  method AddActiveModule(active: seq<Entry>, e: Entry) returns (after: seq<Entry>)
    requires active != [] && Sorted(active)
    ensures Appended(active, after, e)
  {
    if e.loadTimestamp >= active[|active| - 1].loadTimestamp { return active + [e]; }
    var i := |active|;
    while i > 0 && active[i - 1].loadTimestamp > e.loadTimestamp
      invariant 0 <= i <= |active|
      invariant forall k :: i <= k < |active| ==> active[k].loadTimestamp > e.loadTimestamp
    {
      i := i - 1;
    }
    after := active[..i] + [e] + active[i..];
    SplicedMultiset(active, i, e);
    assert after == Spliced(active, i, e);
  }

  /** Adds `e` to each of the ranges first..last. */
  method AddToRanges(ranges: seq<AddressRange>, first: nat, last: nat, e: Entry, ghost moduleCount: nat)
    returns (after: seq<AddressRange>)
    requires Proper(ranges, moduleCount) && first <= last < |ranges| && e.moduleIndex < moduleCount
    ensures Proper(after, moduleCount) && |after| == |ranges|
    ensures forall k :: 0 <= k < |ranges| ==> after[k].begin == ranges[k].begin && after[k].end == ranges[k].end
    ensures forall k :: 0 <= k < |ranges| ==> if first <= k <= last then Appended(ranges[k].active, after[k].active, e)
                                              else after[k] == ranges[k]
  {
    after := ranges;
    var i := first;
    while i <= last
      invariant first <= i <= last + 1 && |after| == |ranges| && Proper(after, moduleCount)
      invariant forall k :: 0 <= k < |ranges| ==> after[k].begin == ranges[k].begin && after[k].end == ranges[k].end
      invariant forall k :: 0 <= k < |ranges| ==> if first <= k < i then Appended(ranges[k].active, after[k].active, e)
                                                  else after[k] == ranges[k]
    {
      var active := AddActiveModule(after[i].active, e);
      AppendedIsProper(after[i], active, e, moduleCount);
      after := after[i := after[i].(active := active)];
      i := i + 1;
    }
  }

  method SplitOne(ranges: seq<AddressRange>, i: nat, at: nat, ghost moduleCount: nat) returns (after: seq<AddressRange>)
    requires Proper(ranges, moduleCount) && i < |ranges| && ranges[i].begin < at < ranges[i].end
    ensures Proper(after, moduleCount) && |after| == |ranges| + 1
    ensures after[i] == ranges[i].(end := at) && after[i + 1] == ranges[i].(begin := at)
    ensures forall k :: 0 <= k < i ==> after[k] == ranges[k]
    ensures forall k :: i + 1 < k < |after| ==> after[k] == ranges[k - 1]
    ensures forall a: nat :: ListAt(after, a) == ListAt(ranges, a)
  {
    after := SplitAt(ranges, i, at);
    SplitAtProper(ranges, i, at, moduleCount);
    forall a: nat ensures ListAt(after, a) == ListAt(ranges, a) {
      SplitAtLists(ranges, i, at, a);
    }
  }

  /** Cuts the range that reaches over `lo`, and the one that reaches over `hi`, so that the ranges first..last
      are those inside [lo, hi) and no other range touches it. */
  method CutOut(ranges: seq<AddressRange>, lo: nat, hi: nat, first: nat, last: nat, ghost moduleCount: nat)
    returns (after: seq<AddressRange>, first': nat, last': nat)
    requires Proper(ranges, moduleCount) && lo < hi && first <= last < |ranges|
    requires forall k :: 0 <= k < first ==> ranges[k].end <= lo
    requires ranges[first].end > lo && ranges[last].begin < hi
    requires forall k :: last < k < |ranges| ==> ranges[k].begin >= hi
    ensures Proper(after, moduleCount) && first' <= last' < |after|
    ensures forall a: nat :: ListAt(after, a) == ListAt(ranges, a)
    ensures forall k :: 0 <= k < first' ==> after[k].end <= lo
    ensures forall k :: first' <= k <= last' ==> lo <= after[k].begin && after[k].end <= hi
    ensures forall k :: last' < k < |after| ==> after[k].begin >= hi
    ensures lo <= ranges[first].begin && ranges[last].end <= hi ==> after == ranges && first' == first && last' == last
  {
    after, first', last' := ranges, first, last;
    if after[first'].begin < lo {
      after := SplitOne(after, first', lo, moduleCount);
      first', last' := first' + 1, last' + 1;
    }
    if after[last'].end > hi {
      after := CutBehind(after, last', hi, moduleCount);
    }
  }

  method CutBehind(ranges: seq<AddressRange>, last: nat, hi: nat, ghost moduleCount: nat)
    returns (after: seq<AddressRange>)
    requires Proper(ranges, moduleCount) && last < |ranges| && ranges[last].begin < hi < ranges[last].end
    ensures Proper(after, moduleCount) && last < |after|
    ensures forall a: nat :: ListAt(after, a) == ListAt(ranges, a)
    ensures forall k :: 0 <= k < last ==> after[k] == ranges[k]
    ensures after[last].begin == ranges[last].begin && after[last].end == hi
    ensures forall k :: last < k < |after| ==> after[k].begin >= hi
  {
    after := SplitOne(ranges, last, hi, moduleCount);
  }

  lemma {:induction false} AddedEffect(ranges: seq<AddressRange>, after: seq<AddressRange>, lo: nat, hi: nat,
                                       first: nat, last: nat, e: Entry, a: nat)
    requires Separated(ranges) && Separated(after) && |after| == |ranges| && first <= last < |ranges|
    requires forall k :: 0 <= k < |ranges| ==> after[k].begin == ranges[k].begin && after[k].end == ranges[k].end
    requires forall k :: 0 <= k < |ranges| ==> if first <= k <= last then Appended(ranges[k].active, after[k].active, e)
                                               else after[k] == ranges[k]
    requires forall k :: 0 <= k < first ==> ranges[k].end <= lo
    requires forall k :: first <= k <= last ==> lo <= ranges[k].begin && ranges[k].end <= hi
    requires forall k :: last < k < |ranges| ==> ranges[k].begin >= hi
    ensures if lo <= a < hi && Covered(ranges, a) then Appended(ListAt(ranges, a), ListAt(after, a), e)
            else ListAt(after, a) == ListAt(ranges, a)
  {
    if Covered(ranges, a) {
      var k :| 0 <= k < |ranges| && Contains(ranges[k], a);
      assert Contains(after[k], a);
      ListAtIs(ranges, k, a);
      ListAtIs(after, k, a);
    } else {
      assert !Covered(after, a) by {
        forall k | 0 <= k < |after| ensures !Contains(after[k], a) { assert !Contains(ranges[k], a); }
      }
      ListAtNothing(ranges, a);
      ListAtNothing(after, a);
    }
  }

  lemma {:induction false} CoveredIffListed(ranges: seq<AddressRange>, a: nat, moduleCount: nat)
    requires Proper(ranges, moduleCount)
    ensures Covered(ranges, a) <==> ListAt(ranges, a) != []
  {
    if Covered(ranges, a) {
      var k :| 0 <= k < |ranges| && Contains(ranges[k], a);
      ListAtIs(ranges, k, a);
    } else {
      ListAtNothing(ranges, a);
    }
  }

  /** Steps back from the newest entry while it is too new; ends at the oldest one if all are. */
  method LatestIndex(active: seq<Entry>, t: nat) returns (k: nat)
    requires active != []
    ensures k < |active|
    ensures Latest(active, t) == if active[k].loadTimestamp <= t then Some(active[k]) else None
    ensures active[k].loadTimestamp > t ==> k == 0
  {
    k := |active| - 1;
    assert active[..k + 1] == active;
    while active[k].loadTimestamp > t && k != 0
      invariant k < |active|
      invariant Latest(active, t) == Latest(active[..k + 1], t)
      decreases k
    {
      assert active[..k + 1][..k] == active[..k];
      k := k - 1;
    }
    assert active[..k + 1][..k] == active[..k];
  }

  class ModuleMap<Data(==)> {
    var modules: seq<ModuleInfo<Data>>
    var addressRanges: seq<AddressRange>

    ghost function Current(): Index<Data>
      reads this
    {
      Index(modules, addressRanges)
    }

    ghost predicate Valid()
      reads this
    {
      ProperIndex(Current())
    }

    constructor ()
      ensures Valid() && Current() == Index([], [])
    {
      modules, addressRanges := [], [];
    }

    method Insert(m: ModuleInfo<Data>, loadTimestamp: nat)
      requires Valid() && m.size > 0 && EndOf(m) < ADDRESS_LIMIT
      modifies this
      ensures Valid() && Inserted(old(Current()), Current(), m, loadTimestamp)
      // An interval that is free, or is a range, is a range afterwards, so that its module is recognized again.
      ensures IsWhole(old(addressRanges), m.base, EndOf(m)) ==> HasRange(addressRanges, m.base, EndOf(m))
    {
      hide Inserted, ListAt, Gap, HasRange, Gains, GainsInside, Updated, IsDuplicate, Extended;
      ghost var s := Current();
      var e := Entry(loadTimestamp, |modules|);
      modules := modules + [m];
      if addressRanges == [] {
        addressRanges := [AddressRange(m.base, EndOf(m), [e])];
        FirstModule(s, Current(), m, loadTimestamp);
        return;
      }
      var lo, hi := ExtendSpan(m, e);
      ghost var s1 := Current();
      ExtendedProper(s.ranges, m, e, |s.modules|);
      if IsWhole(s.ranges, m.base, EndOf(m)) { ExtendedWhole(s, m, e); }
      if lo < hi {
        ExtendedInside(s.ranges, m, e, lo, hi);
        InsertInside(lo, hi, e, m);
      }
      StepsMeanInserted(s, s1, Current(), m, loadTimestamp);
    }

    /** Covers the parts of the module's interval in front of and behind the total span; returns the rest. */
    method ExtendSpan(m: ModuleInfo<Data>, e: Entry) returns (lo: nat, hi: nat)
      requires addressRanges != [] && m.size > 0
      requires forall i :: 0 <= i < |addressRanges| ==> addressRanges[i].begin < addressRanges[i].end
      requires Separated(addressRanges)
      modifies this`addressRanges
      ensures addressRanges == Extended(old(addressRanges), m, e)
      ensures lo == ClippedBegin(old(addressRanges), m)
      ensures lo < hi <==> ClippedBegin(old(addressRanges), m) < ClippedEnd(old(addressRanges), m)
      ensures lo < hi ==> hi == ClippedEnd(old(addressRanges), m)
    {
      lo, hi := m.base, EndOf(m);
      assert addressRanges[0].begin < addressRanges[|addressRanges| - 1].end;
      if addressRanges[0].begin > lo {
        var totalBegin := addressRanges[0].begin;
        addressRanges := [AddressRange(lo, Min(totalBegin, hi), [e])] + addressRanges;
        lo := totalBegin;
        if lo >= hi { return; }
      }
      if addressRanges[|addressRanges| - 1].end < hi {
        var totalEnd := addressRanges[|addressRanges| - 1].end;
        addressRanges := addressRanges + [AddressRange(Max(totalEnd, lo), hi, [e])];
        hi := totalEnd;
      }
    }

    /** Inserts the part [lo, hi) of the last module, which lies inside the total span. */
    method InsertInside(lo: nat, hi: nat, e: Entry, m: ModuleInfo<Data>)
      requires Valid() && modules != [] && modules[|modules| - 1] == m && e.moduleIndex == |modules| - 1
      requires addressRanges != [] && addressRanges[0].begin <= lo < hi <= addressRanges[|addressRanges| - 1].end
      requires m.base <= lo && hi <= EndOf(m)
      modifies this
      ensures ProperIndex(old(Current()))
      ensures IsWhole(old(addressRanges), lo, hi) ==> HasRange(addressRanges, lo, hi)
      ensures if IsDuplicate(old(Current()), m, e.loadTimestamp) then
                addressRanges == old(addressRanges) && modules == old(modules)[..|old(modules)| - 1]
              else
                && Valid() && modules == old(modules)
                && forall a: nat ::
                     Updated(ListAt(old(addressRanges), a), ListAt(addressRanges, a),
                             GainsInside(old(addressRanges), lo, hi, a), e)
    {
      hide ListAt, Gains, Latest, Gap, IsWhole, Updated, GainsInside, IsDuplicate;
      ghost var s := Current();
      var after := FirstBeginAtLeast(addressRanges, hi);
      var last := after - 1;
      if addressRanges[last].end <= lo {
        GapFilled(s, after, lo, hi, e, m);
        addressRanges := Spliced(addressRanges, after, AddressRange(lo, hi, [e]));
        return;
      }
      var first := last;
      if addressRanges[last].begin > lo {
        first := FirstEndBehind(addressRanges, lo);
      }
      OnlyOverlap(s, first, last, lo, hi, m, e.loadTimestamp);
      if IsWhole(s.ranges, lo, hi) { OnlyWhole(s, first, last, lo, hi); }
      if first == last && addressRanges[first].begin == m.base && addressRanges[first].end == EndOf(m)
         && addressRanges[first].active[|addressRanges[first].active| - 1].loadTimestamp <= e.loadTimestamp
         && modules[addressRanges[first].active[|addressRanges[first].active| - 1].moduleIndex].payload == m.payload
      {
        modules := modules[..|modules| - 1];
        return;
      }
      addressRanges := AddInside(addressRanges, lo, hi, first, last, e, |modules|);
    }

    method Find(address: nat, timestamp: nat, strict: bool) returns (r: Option<(ModuleInfo<Data>, nat)>)
      requires Valid()
      ensures r == Found(Current(), address, timestamp, strict)
    {
      var i := FirstBeginAtLeast(addressRanges, address + 1);
      if i == 0 || !Contains(addressRanges[i - 1], address) {
        forall k | 0 <= k < |addressRanges| ensures !Contains(addressRanges[k], address) {
          assert i > 0 && k < i - 1 ==> addressRanges[k].end <= addressRanges[i - 1].begin;
        }
        ListAtNothing(addressRanges, address);
        return None;
      }
      var active := addressRanges[i - 1].active;
      ListAtIs(addressRanges, i - 1, address);
      var k := LatestIndex(active, timestamp);
      if strict && active[k].loadTimestamp > timestamp { return None; }
      r := Some((modules[active[k].moduleIndex], active[k].loadTimestamp));
    }
  }

  lemma {:induction false} FirstModule<Data>(s: Index<Data>, s': Index<Data>, m: ModuleInfo<Data>, t: nat)
    requires ProperIndex(s) && s.ranges == [] && m.size > 0
    requires s' == Index(s.modules + [m], [AddressRange(m.base, EndOf(m), [Entry(t, |s.modules|)])])
    ensures ProperIndex(s') && Inserted(s, s', m, t) && HasRange(s'.ranges, m.base, EndOf(m))
  {
    var e := Entry(t, |s.modules|);
    assert s'.ranges[0].begin == m.base;
    forall a: nat ensures Updated(ListAt(s.ranges, a), ListAt(s'.ranges, a), Gains(s.ranges, m, a), e) {
      ListsOfOne(s'.ranges, a);
      assert [] + [e] == [e];
    }
  }

  /** Adds `e` to the parts of the ranges first..last that lie in [lo, hi). */
  method AddInside(ranges: seq<AddressRange>, lo: nat, hi: nat, first: nat, last: nat, e: Entry,
                   ghost moduleCount: nat)
    returns (after: seq<AddressRange>)
    requires Proper(ranges, moduleCount) && lo < hi && first <= last < |ranges| && e.moduleIndex < moduleCount
    requires forall k :: 0 <= k < first ==> ranges[k].end <= lo
    requires ranges[first].end > lo && ranges[last].begin < hi
    requires forall k :: last < k < |ranges| ==> ranges[k].begin >= hi
    requires !Gap(ranges, lo, hi)
    ensures Proper(after, moduleCount)
    ensures forall a: nat :: Updated(ListAt(ranges, a), ListAt(after, a), GainsInside(ranges, lo, hi, a), e)
    ensures first == last && ranges[first].begin == lo && ranges[last].end == hi ==> HasRange(after, lo, hi)
  {
    var cut, first', last' := CutOut(ranges, lo, hi, first, last, moduleCount);
    after := AddToRanges(cut, first', last', e, moduleCount);
    assert after[first'].begin == cut[first'].begin && after[last'].end == cut[last'].end;
    CutAndAdded(ranges, cut, after, lo, hi, first', last', e, moduleCount);
  }

  lemma {:induction false} GapFilled<Data>(s: Index<Data>, after: nat, lo: nat, hi: nat, e: Entry, m: ModuleInfo<Data>)
    requires ProperIndex(s) && m.base <= lo < hi <= EndOf(m) && 0 < after <= |s.ranges| && e.moduleIndex < |s.modules|
    requires s.ranges[after - 1].end <= lo
    requires forall k :: after <= k < |s.ranges| ==> s.ranges[k].begin >= hi
    ensures var more := Spliced(s.ranges, after, AddressRange(lo, hi, [e]));
            && Proper(more, |s.modules|) && HasRange(more, lo, hi) && !IsDuplicate(s, m, e.loadTimestamp)
            && forall a: nat :: Updated(ListAt(s.ranges, a), ListAt(more, a), GainsInside(s.ranges, lo, hi, a), e)
  {
    var r := AddressRange(lo, hi, [e]);
    forall k | 0 <= k < after ensures s.ranges[k].end <= lo {
      assert ProperRange(s.ranges[after - 1], |s.modules|);
    }
    SplicedProper(s.ranges, after, r, |s.modules|);
    assert Spliced(s.ranges, after, r)[after] == r;
    forall a: nat
      ensures Updated(ListAt(s.ranges, a), ListAt(Spliced(s.ranges, after, r), a), GainsInside(s.ranges, lo, hi, a), e)
    {
      SplicedLists(s.ranges, after, r, a);
      CoveredIffListed(s.ranges, a, |s.modules|);
    }
  }

  /** A range equal to the whole module is the only one that overlaps [lo, hi). */
  lemma {:induction false} OnlyOverlap<Data>(s: Index<Data>, first: nat, last: nat, lo: nat, hi: nat,
                                             m: ModuleInfo<Data>, t: nat)
    requires ProperIndex(s) && first < |s.ranges| && last < |s.ranges| && m.base <= lo < hi <= EndOf(m)
    requires s.ranges[first].end > lo && s.ranges[last].begin < hi && s.ranges[last].end > lo
    requires forall k :: 0 <= k < first ==> s.ranges[k].end <= lo
    requires forall k :: last < k < |s.ranges| ==> s.ranges[k].begin >= hi
    ensures first <= last && !Gap(s.ranges, lo, hi)
    ensures IsDuplicate(s, m, t) <==> first == last && IsDuplicateAt(s, m, t, first)
  {
    forall i | 0 <= i < |s.ranges| && IsDuplicateAt(s, m, t, i) ensures i == first == last {
      assert s.ranges[i].begin <= lo && hi <= s.ranges[i].end;
    }
  }

  /** An interval that is a range overlaps only that one. */
  lemma {:induction false} OnlyWhole<Data>(s: Index<Data>, first: nat, last: nat, lo: nat, hi: nat)
    requires ProperIndex(s) && first < |s.ranges| && last < |s.ranges| && lo < hi
    requires s.ranges[first].end > lo && s.ranges[last].begin < hi && s.ranges[last].end > lo
    requires forall k :: 0 <= k < first ==> s.ranges[k].end <= lo
    requires forall k :: last < k < |s.ranges| ==> s.ranges[k].begin >= hi
    requires IsWhole(s.ranges, lo, hi)
    ensures first == last && s.ranges[first].begin == lo && s.ranges[first].end == hi
  {
    assert !Gap(s.ranges, lo, hi);
    var i :| 0 <= i < |s.ranges| && s.ranges[i].begin == lo && s.ranges[i].end == hi;
    assert i == first == last;
  }

  /** Such an interval lies inside the total span, or outside of it, where it gets a range of its own. */
  lemma {:induction false} ExtendedWhole<Data>(s: Index<Data>, m: ModuleInfo<Data>, e: Entry)
    requires ProperIndex(s) && s.ranges != [] && m.size > 0 && IsWhole(s.ranges, m.base, EndOf(m))
    ensures if ClippedBegin(s.ranges, m) < ClippedEnd(s.ranges, m) then
              Extended(s.ranges, m, e) == s.ranges && ClippedBegin(s.ranges, m) == m.base
              && ClippedEnd(s.ranges, m) == EndOf(m)
            else
              HasRange(Extended(s.ranges, m, e), m.base, EndOf(m))
  {
    var ranges, more := s.ranges, Extended(s.ranges, m, e);
    if HasRange(ranges, m.base, EndOf(m)) {
      var i :| 0 <= i < |ranges| && ranges[i].begin == m.base && ranges[i].end == EndOf(m);
      assert ranges[0].begin <= ranges[i].begin && ranges[i].end <= ranges[|ranges| - 1].end;
    } else if m.base < ranges[0].begin {
      assert more[0] == AddressRange(m.base, EndOf(m), [e]);
    } else if EndOf(m) > ranges[|ranges| - 1].end {
      assert more[|more| - 1] == AddressRange(m.base, EndOf(m), [e]);
    }
  }

  lemma {:induction false} CutAndAdded(ranges: seq<AddressRange>, cut: seq<AddressRange>, after: seq<AddressRange>,
                                       lo: nat, hi: nat, first: nat, last: nat, e: Entry, n: nat)
    requires Proper(ranges, n) && Proper(cut, n) && Proper(after, n) && |after| == |cut| && first <= last < |cut|
    requires !Gap(ranges, lo, hi) && forall a: nat :: ListAt(cut, a) == ListAt(ranges, a)
    requires forall k :: 0 <= k < |cut| ==> after[k].begin == cut[k].begin && after[k].end == cut[k].end
    requires forall k :: 0 <= k < |cut| ==> if first <= k <= last then Appended(cut[k].active, after[k].active, e)
                                            else after[k] == cut[k]
    requires forall k :: 0 <= k < first ==> cut[k].end <= lo
    requires forall k :: first <= k <= last ==> lo <= cut[k].begin && cut[k].end <= hi
    requires forall k :: last < k < |cut| ==> cut[k].begin >= hi
    ensures forall a: nat :: Updated(ListAt(ranges, a), ListAt(after, a), GainsInside(ranges, lo, hi, a), e)
  {
    forall a: nat ensures Updated(ListAt(ranges, a), ListAt(after, a), GainsInside(ranges, lo, hi, a), e) {
      AddedEffect(cut, after, lo, hi, first, last, e, a);
      CoveredIffListed(ranges, a, n);
      CoveredIffListed(cut, a, n);
    }
  }
}
