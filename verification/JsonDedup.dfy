/** The deduplicating consumer: what it keeps, when its keys tell metrics apart, and what the
    caller may see when it returns. */
module JsonDedup {
  import opened Wrappers
  import opened Text
  import opened Series
  import opened JsonSpec
  import opened JsonLaws

  /* What is kept. */

  ghost predicate SameSeries(a: MetricHeader, b: MetricHeader)
    requires a.data != [] && b.data != []
  {
    a.id == b.id && a.data[0].tags == b.data[0].tags
  }

  ghost predicate KeptWell(k: Kept) {
    && (forall i :: 0 <= i < |k.metrics| ==> k.metrics[i].data != [] && UniqueKey(k.metrics[i]) in k.seen)
    && (forall i, j :: 0 <= i < j < |k.metrics| ==> UniqueKey(k.metrics[i]) != UniqueKey(k.metrics[j]))
  }

  lemma {:induction false} ReceiveAllKeepsWell(ms: seq<MetricHeader>)
    ensures KeptWell(ReceiveAll(ms))
  {
    hide UniqueKey;
    if ms != [] { ReceiveAllKeepsWell(ms[..|ms| - 1]); }
  }

  /** The result never holds two metrics with equal ID and tags. */
  lemma DedupDistinct(ms: seq<MetricHeader>)
    ensures var r := Dedup(ms);
      && (forall i :: 0 <= i < |r| ==> r[i].data != [])
      && (forall i, j :: 0 <= i < j < |r| ==> !SameSeries(r[i], r[j]))
  {
    ReceiveAllKeepsWell(ms);
  }

  /** Exactly the first metric of each key is kept. */
  ghost predicate IsFirst(ms: seq<MetricHeader>, i: nat)
    requires i < |ms|
  {
    ms[i].data != [] && forall j :: 0 <= j < i && ms[j].data != [] ==> UniqueKey(ms[j]) != UniqueKey(ms[i])
  }

  /** First-wins, independently of the consumer's bookkeeping. */
  ghost function Firsts(ms: seq<MetricHeader>, n: nat): seq<MetricHeader>
    requires n <= |ms|
  {
    if n == 0 then [] else Firsts(ms, n - 1) + (if IsFirst(ms, n - 1) then [ms[n - 1]] else [])
  }

  ghost predicate SeenExactly(k: Kept, ms: seq<MetricHeader>, n: nat)
    requires n <= |ms|
  {
    && (forall j :: 0 <= j < n && ms[j].data != [] ==> UniqueKey(ms[j]) in k.seen)
    && (forall key :: key in k.seen ==> exists j :: 0 <= j < n && ms[j].data != [] && UniqueKey(ms[j]) == key)
  }

  lemma {:induction false} SeenIsExact(ms: seq<MetricHeader>, n: nat)
    requires n <= |ms|
    ensures SeenExactly(ReceiveAll(ms[..n]), ms, n)
  {
    hide UniqueKey;
    if n > 0 {
      SeenIsExact(ms, n - 1);
      assert ms[..n][..n - 1] == ms[..n - 1];
      var k, k' := ReceiveAll(ms[..n - 1]), ReceiveAll(ms[..n]);
      forall key | key in k'.seen ensures exists j :: 0 <= j < n && ms[j].data != [] && UniqueKey(ms[j]) == key {
        if key in k.seen {
          var j :| 0 <= j < n - 1 && ms[j].data != [] && UniqueKey(ms[j]) == key;
        } else {
          assert UniqueKey(ms[n - 1]) == key;
        }
      }
    }
  }

  lemma SeenMeansNotFirst(ms: seq<MetricHeader>, n: nat)
    requires n < |ms| && ms[n].data != []
    ensures IsFirst(ms, n) <==> UniqueKey(ms[n]) !in ReceiveAll(ms[..n]).seen
  {
    hide UniqueKey, ReceiveAll;
    SeenIsExact(ms, n);
  }

  lemma {:induction false} ReceiveIsFirsts(ms: seq<MetricHeader>, n: nat)
    requires n <= |ms|
    ensures ReceiveAll(ms[..n]).metrics == Firsts(ms, n)
  {
    if n > 0 {
      hide UniqueKey, IsFirst;
      ReceiveIsFirsts(ms, n - 1);
      assert ms[..n][..n - 1] == ms[..n - 1];
      if ms[n - 1].data != [] {
        SeenMeansNotFirst(ms, n - 1);
      } else {
        NoDataNotFirst(ms, n - 1);
      }
    }
  }

  lemma NoDataNotFirst(ms: seq<MetricHeader>, n: nat)
    requires n < |ms| && ms[n].data == []
    ensures !IsFirst(ms, n)
  {}

  lemma DedupIsFirsts(ms: seq<MetricHeader>)
    ensures Dedup(ms) == Firsts(ms, |ms|)
  {
    ReceiveIsFirsts(ms, |ms|);
    assert ms[..|ms|] == ms;
  }

  /** Nothing is dropped when all keys differ. */
  lemma {:induction false} FirstsOfDistinct(ms: seq<MetricHeader>, n: nat)
    requires n <= |ms| && forall i :: 0 <= i < |ms| ==> ms[i].data != []
    requires forall i, j :: 0 <= i < j < |ms| ==> UniqueKey(ms[i]) != UniqueKey(ms[j])
    ensures Firsts(ms, n) == ms[..n]
  {
    hide UniqueKey;
    if n > 0 {
      FirstsOfDistinct(ms, n - 1);
      assert ms[..n] == ms[..n - 1] + [ms[n - 1]];
    }
  }

  /* Keys of flattened metrics. */

  const SEPARATOR := "label"

  function LabelNames(n: nat): set<string> {
    set i | 1 <= i <= n :: Label(i)
  }

  lemma {:induction false} TagKeys(labels: seq<string>)
    ensures TagsOf(labels).Keys == LabelNames(|labels|)
  {
    if labels != [] {
      TagKeys(labels[..|labels| - 1]);
      OneMoreLabel(|labels|);
    }
  }

  lemma OneMoreLabel(n: nat)
    requires n > 0
    ensures LabelNames(n) == LabelNames(n - 1) + {Label(n)} && Label(n) !in LabelNames(n - 1)
  {
    forall i | 1 <= i < n ensures Label(i) != Label(n) {
      if Label(i) == Label(n) { LabelInjective(i, n); }
    }
  }

  lemma {:induction false} LabelCount(n: nat)
    ensures |LabelNames(n)| == n
  {
    if n == 0 {
      assert LabelNames(0) == {};
    } else {
      hide LabelNames;
      LabelCount(n - 1);
      OneMoreLabel(n);
    }
  }

  /** The sorted label names of a path of length `n`. */
  ghost function Names(n: nat): seq<string> {
    SortedKeys(LabelNames(n))
  }

  lemma NamesAreLabels(n: nat)
    ensures |Names(n)| == n
    ensures forall j :: 0 <= j < n ==> Names(n)[j] in LabelNames(n)
    ensures forall i :: 1 <= i <= n ==> Label(i) in Names(n)
  {
    var e, names := Enumeration(LabelNames(n)), Names(n);
    EnumeratesMultiset(e, LabelNames(n));
    LabelCount(n);
    assert |multiset(names)| == |multiset(e)| == |LabelNames(n)|;
    forall x ensures x in names <==> x in LabelNames(n) {
      assert x in multiset(names) <==> x in multiset(LabelNames(n));
    }
  }

  /** The empty strings sort to the front. */
  lemma EmptiesSortFirst(n: nat, s: set<string>)
    ensures SortStrings(Empties(n) + Enumeration(s)) == Empties(n) + SortedKeys(s)
  {
    var e := Enumeration(s);
    assert multiset(Empties(n) + SortedKeys(s)) == multiset(Empties(n) + e);
    SortedUnique(SortStrings(Empties(n) + e), Empties(n) + SortedKeys(s));
  }

  lemma {:induction false} ConcatEmpties(n: nat, names: seq<string>, tags: map<string, string>)
    requires "" !in tags
    ensures Concat(Empties(n) + names, tags) == Concat(names, tags)
    decreases n + |names|
  {
    var all := Empties(n) + names;
    if names != [] {
      assert all[..|all| - 1] == Empties(n) + names[..|names| - 1];
      ConcatEmpties(n, names[..|names| - 1], tags);
    } else if n > 0 {
      assert all == Empties(n) && all[..|all| - 1] == Empties(n - 1) + [];
      ConcatEmpties(n - 1, [], tags);
    }
  }

  /** One piece of a key between two separators: the label's number and its value. */
  function Piece(name: string, tags: map<string, string>): string
    requires |name| >= 5
  {
    name[5..] + (if name in tags then tags[name] else "")
  }

  function Pieces(names: seq<string>, tags: map<string, string>): (r: seq<string>)
    requires forall j :: 0 <= j < |names| ==> |names[j]| >= 5
    ensures |r| == |names| && forall j :: 0 <= j < |names| ==> r[j] == Piece(names[j], tags)
  {
    seq(|names|, j requires 0 <= j < |names| => Piece(names[j], tags))
  }

  lemma {:induction false} JoinAppend(xs: seq<string>, y: string, sep: string)
    requires xs != []
    ensures Join(xs + [y], sep) == Join(xs, sep) + sep + y
  {
    if |xs| == 1 {
      assert (xs + [y])[1..] == [y];
    } else {
      JoinAppend(xs[1..], y, sep);
      assert (xs + [y])[1..] == xs[1..] + [y];
    }
  }

  lemma Regroup(before: string, name: string, value: string)
    requires |name| >= 5 && name[..5] == SEPARATOR
    ensures before + (name + value) == before + SEPARATOR + (name[5..] + value)
  {
    assert name == SEPARATOR + name[5..];
  }

  lemma PiecesStep(id: string, names: seq<string>, tags: map<string, string>)
    requires names != [] && forall j :: 0 <= j < |names| ==> |names[j]| >= 5
    ensures [id] + Pieces(names, tags)
         == ([id] + Pieces(names[..|names| - 1], tags)) + [Piece(names[|names| - 1], tags)]
  {
    hide Piece;
  }

  lemma ConcatStep(names: seq<string>, tags: map<string, string>)
    requires names != []
    ensures var last := names[|names| - 1];
      Concat(names, tags) == Concat(names[..|names| - 1], tags) + (last + (if last in tags then tags[last] else ""))
  {}

  lemma {:induction false} KeyIsJoin(id: string, names: seq<string>, tags: map<string, string>)
    requires forall j :: 0 <= j < |names| ==> |names[j]| >= 5 && names[j][..5] == SEPARATOR
    ensures id + Concat(names, tags) == Join([id] + Pieces(names, tags), SEPARATOR)
  {
    if names == [] {
      assert [id] + Pieces(names, tags) == [id];
    } else {
      hide Join, Pieces, Concat;
      var init, last := names[..|names| - 1], names[|names| - 1];
      KeyIsJoin(id, init, tags);
      JoinAppend([id] + Pieces(init, tags), Piece(last, tags), SEPARATOR);
      PiecesStep(id, names, tags);
      ConcatStep(names, tags);
      var value := if last in tags then tags[last] else "";
      Regroup(id + Concat(init, tags), last, value);
      assert id + Concat(names, tags) == id + Concat(init, tags) + (last + value);
    }
  }

  lemma NamesBegin(n: nat)
    ensures forall j :: 0 <= j < |Names(n)| ==> |Names(n)[j]| >= 5 && Names(n)[j][..5] == SEPARATOR
  {
    NamesAreLabels(n);
    forall j | 0 <= j < |Names(n)| ensures |Names(n)[j]| >= 5 && Names(n)[j][..5] == SEPARATOR {
      var i :| 1 <= i <= n && Names(n)[j] == Label(i);
    }
  }

  /** The empty strings in front add nothing to the key. */
  lemma KeyOfLabels(w: Walk, id: string, mtype: string, labels: seq<string>, x: Float)
    ensures UniqueKey(Metric(w, id, mtype, TagsOf(labels), x)) == id + Concat(Names(|labels|), TagsOf(labels))
  {
    var tags := TagsOf(labels);
    TagKeys(labels);
    if labels == [] {
      NamesAreLabels(0);
      assert Names(0) == [];
    } else {
      hide SortStrings, TagsOf, LabelNames, Concat;
      OneMoreLabel(|labels|);
      assert Label(|labels|) in tags;
      EmptiesSortFirst(|tags|, tags.Keys);
      NoEmptyTag(labels);
      ConcatEmpties(|tags|, Names(|labels|), tags);
    }
  }

  predicate IsStat(stat: string) {
    stat in {"min", "max", "avg", "stddev"}
  }

  /** The first part of a leaf's key. */
  function Head(id: string, stat: string): string {
    if stat == "" then id else id + (STAT_TAG + stat)
  }

  /** Strictly sorted. */
  ghost predicate Ascending(names: seq<string>) {
    Sorted(names) && forall i, j :: 0 <= i < j < |names| ==> names[i] != names[j]
  }

  lemma AscendingFront(x: string, names: seq<string>)
    requires Ascending(names) && forall j :: 0 <= j < |names| ==> StrLe(x, names[j]) && x != names[j]
    ensures Ascending([x] + names)
  {
    hide StrLe;
    var all := [x] + names;
    forall i, j | 0 <= i < j < |all| ensures StrLe(all[i], all[j]) && all[i] != all[j] {
      assert all[j] == names[j - 1];
      if i > 0 { assert all[i] == names[i - 1]; }
    }
  }

  lemma LabelsAscend(n: nat)
    ensures Ascending([STAT_TAG] + Names(n))
  {
    hide StrLe, Label;
    NamesAreLabels(n);
    SortedKeysSorted(LabelNames(n));
    SortedKeysDistinct(LabelNames(n));
    forall j | 0 <= j < n ensures StrLe(STAT_TAG, Names(n)[j]) && STAT_TAG != Names(n)[j] {
      var i :| 1 <= i <= n && Names(n)[j] == Label(i);
      StatBeforeLabel(i);
    }
    AscendingFront(STAT_TAG, Names(n));
  }

  lemma StatBeforeLabel(i: nat)
    ensures StrLe(STAT_TAG, Label(i)) && STAT_TAG != Label(i)
  {
    assert STAT_TAG[0] == 'a' && Label(i)[0] == 'l';
  }

  /** The statistic's tag sorts before the labels. */
  lemma StatSortsFirst(n: nat)
    ensures SortedKeys(LabelNames(n) + {STAT_TAG}) == [STAT_TAG] + Names(n)
  {
    hide Sorted, StrLe, Names;
    LabelsAscend(n);
    NamesAreLabels(n);
    assert (set k | k in [STAT_TAG] + Names(n)) == LabelNames(n) + {STAT_TAG};
    SortedKeysOf([STAT_TAG] + Names(n));
  }

  lemma {:induction false} ConcatFront(name: string, names: seq<string>, tags: map<string, string>)
    requires name in tags
    ensures Concat([name] + names, tags) == name + tags[name] + Concat(names, tags)
  {
    if names == [] {
      assert [name] + names == [name] && [name][..0] == [];
    } else {
      var all := [name] + names;
      assert all[..|all| - 1] == [name] + names[..|names| - 1];
      ConcatFront(name, names[..|names| - 1], tags);
    }
  }

  lemma {:induction false} ConcatCongruent(names: seq<string>, tags: map<string, string>, other: map<string, string>)
    requires forall j :: 0 <= j < |names| ==>
      (names[j] in tags <==> names[j] in other) && (names[j] in tags ==> tags[names[j]] == other[names[j]])
    ensures Concat(names, tags) == Concat(names, other)
  {
    if names != [] { ConcatCongruent(names[..|names| - 1], tags, other); }
  }

  lemma KeyFromNames(w: Walk, id: string, mtype: string, tags: map<string, string>, x: Float)
    requires tags != map[] && "" !in tags
    ensures UniqueKey(Metric(w, id, mtype, tags, x)) == id + Concat(SortedKeys(tags.Keys), tags)
  {
    hide SortStrings, Concat, SortedKeys;
    EmptiesSortFirst(|tags|, tags.Keys);
    ConcatEmpties(|tags|, SortedKeys(tags.Keys), tags);
  }

  lemma TagsWithStat(labels: seq<string>, stat: string)
    requires stat != ""
    ensures var n, tags := |labels|, StatTags(labels, stat);
      && tags.Keys == LabelNames(n) + {STAT_TAG} && tags[STAT_TAG] == stat && "" !in tags
      && Concat(Names(n), tags) == Concat(Names(n), TagsOf(labels))
  {
    hide TagsOf, LabelNames, Concat, Names;
    TagKeys(labels);
    NoEmptyTag(labels);
    StatIsNoName(|labels|);
    ConcatCongruent(Names(|labels|), StatTags(labels, stat), TagsOf(labels));
  }

  lemma KeyOfStat(w: Walk, id: string, mtype: string, labels: seq<string>, stat: string, x: Float)
    requires stat != ""
    ensures UniqueKey(Metric(w, id, mtype, StatTags(labels, stat), x))
         == Head(id, stat) + Concat(Names(|labels|), TagsOf(labels))
  {
    hide TagsOf, StatTags, LabelNames, Concat, Names, SortedKeys, UniqueKey;
    var tags, names := StatTags(labels, stat), Names(|labels|);
    TagsWithStat(labels, stat);
    StatSortsFirst(|labels|);
    KeyFromNames(w, id, mtype, tags, x);
    ConcatFront(STAT_TAG, names, tags);
    assert id + (STAT_TAG + stat + Concat(names, tags)) == id + (STAT_TAG + stat) + Concat(names, tags);
  }

  lemma StatIsNoName(n: nat)
    ensures forall j :: 0 <= j < |Names(n)| ==> Names(n)[j] != STAT_TAG
  {
    NamesAreLabels(n);
    forall j | 0 <= j < |Names(n)| ensures Names(n)[j] != STAT_TAG {
      var i :| 1 <= i <= n && Names(n)[j] == Label(i);
      StatBeforeLabel(i);
    }
  }

  lemma KeyOfTags(w: Walk, id: string, mtype: string, labels: seq<string>, stat: string, x: Float)
    ensures UniqueKey(Metric(w, id, mtype, StatTags(labels, stat), x))
      == Head(id, stat) + Concat(Names(|labels|), TagsOf(labels))
  {
    hide UniqueKey, Concat, Names;
    if stat == "" { KeyOfLabels(w, id, mtype, labels, x); } else { KeyOfStat(w, id, mtype, labels, stat, x); }
  }

  /** The key of a flattened metric: its head and numbered values joined by "label". */
  lemma KeyOfPath(w: Walk, id: string, mtype: string, labels: seq<string>, stat: string, x: Float)
    ensures var n, tags := |labels|, TagsOf(labels);
      && (forall j :: 0 <= j < |Names(n)| ==> |Names(n)[j]| >= 5)
      && UniqueKey(Metric(w, id, mtype, StatTags(labels, stat), x))
         == Join([Head(id, stat)] + Pieces(Names(n), tags), SEPARATOR)
  {
    hide Concat, UniqueKey, Names, Head;
    NamesBegin(|labels|);
    KeyOfTags(w, id, mtype, labels, stat, x);
    KeyIsJoin(Head(id, stat), Names(|labels|), TagsOf(labels));
  }

  lemma NoEmptyTag(labels: seq<string>)
    ensures "" !in TagsOf(labels)
  {
    TagKeys(labels);
    assert forall i: nat :: |Label(i)| >= 5;
  }

  predicate IsDigit(c: char) {
    '0' <= c <= '9'
  }

  /** Where a key can be read as going on to the next label. */
  ghost predicate MarkAt(s: string, k: int) {
    OccursAt(s, SEPARATOR, k) && k + 5 < |s| && IsDigit(s[k + 5])
  }

  /** A name the keys can tell apart: "label" followed by a digit does not occur in it. */
  ghost predicate Plain(name: string) {
    forall k :: !MarkAt(name, k)
  }

  ghost predicate AllPlain(names: seq<string>) {
    forall i :: 0 <= i < |names| ==> Plain(names[i])
  }

  /** A part behind a separator. */
  ghost predicate Numbered(part: string) {
    part != "" && IsDigit(part[0]) && Plain(part)
  }

  lemma MarkBetween(x: string, r: string)
    requires r != "" && IsDigit(r[0])
    ensures MarkAt(x + SEPARATOR + r, |x|)
  {
    var s := x + SEPARATOR + r;
    assert s[|x|..|x| + 5] == SEPARATOR && s[|x| + 5] == r[0];
  }

  lemma NoDigitInSeparator()
    ensures forall j :: 0 <= j < |SEPARATOR| ==> !IsDigit(SEPARATOR[j])
  {}

  /** A mark that begins in `y` does not go beyond it: its digit would be a letter of the separator. */
  lemma MarkInside(y: string, r: string, k: nat)
    requires k < |y| && MarkAt(y + SEPARATOR + r, k)
    ensures MarkAt(y, k)
  {
    var s := y + SEPARATOR + r;
    NoDigitInSeparator();
    assert forall j :: |y| <= j < |y| + 5 ==> s[j] == SEPARATOR[j - |y|] && !IsDigit(s[j]);
    assert y[k..k + 5] == s[k..k + 5];
  }

  lemma MarkNotBefore(y: string, r: string, k: nat)
    requires Plain(y) && k < |y|
    ensures !MarkAt(y + SEPARATOR + r, k)
  {
    if MarkAt(y + SEPARATOR + r, k) { MarkInside(y, r, k); }
  }

  lemma MarksSplit(x: string, r: string, y: string, t: string)
    requires Plain(x) && Plain(y) && r != "" && t != "" && IsDigit(r[0]) && IsDigit(t[0])
    requires x + SEPARATOR + r == y + SEPARATOR + t
    ensures x == y && r == t
  {
    MarkBetween(x, r);
    MarkBetween(y, t);
    if |x| < |y| { MarkNotBefore(y, t, |x|); }
    if |y| < |x| { MarkNotBefore(x, r, |y|); }
    assert (x + SEPARATOR + r)[..|x|] == x && (y + SEPARATOR + t)[..|y|] == y;
    assert (x + SEPARATOR + r)[|x| + 5..] == r && (y + SEPARATOR + t)[|y| + 5..] == t;
  }

  lemma JoinNumbered(parts: seq<string>)
    requires parts != [] && Numbered(parts[0])
    ensures Join(parts, SEPARATOR) != "" && Join(parts, SEPARATOR)[0] == parts[0][0]
  {}

  lemma {:induction false} JoinedPartsAgree(x: string, xs: seq<string>, y: string, ys: seq<string>)
    requires Plain(x) && Plain(y)
    requires forall i :: 0 <= i < |xs| ==> Numbered(xs[i])
    requires forall i :: 0 <= i < |ys| ==> Numbered(ys[i])
    requires Join([x] + xs, SEPARATOR) == Join([y] + ys, SEPARATOR)
    ensures x == y && xs == ys
    decreases |xs|
  {
    assert ([x] + xs)[1..] == xs && ([y] + ys)[1..] == ys;
    if xs != [] { JoinNumbered(xs); }
    if ys != [] { JoinNumbered(ys); }
    if xs == [] && ys != [] {
      MarkBetween(y, Join(ys, SEPARATOR));
    } else if xs != [] && ys == [] {
      MarkBetween(x, Join(xs, SEPARATOR));
    } else if xs != [] {
      MarksSplit(x, Join(xs, SEPARATOR), y, Join(ys, SEPARATOR));
      assert xs == [xs[0]] + xs[1..] && ys == [ys[0]] + ys[1..];
      JoinedPartsAgree(xs[0], xs[1..], ys[0], ys[1..]);
    }
  }

  lemma PieceNumbered(i: nat, value: string)
    requires Plain(value)
    ensures Numbered(Itoa(i) + value)
  {
    var digits, part := Itoa(i), Itoa(i) + value;
    forall k ensures !MarkAt(part, k) {
      if OccursAt(part, SEPARATOR, k) && k + 5 < |part| {
        assert part[k..k + 5][0] == 'l';
        if k < |digits| {
          assert part[k] == digits[k];
        } else {
          assert part[k..k + 5] == value[k - |digits|..k - |digits| + 5];
          assert !MarkAt(value, k - |digits|);
        }
      }
    }
  }

  lemma PiecesNumbered(labels: seq<string>)
    requires AllPlain(labels)
    ensures forall j :: 0 <= j < |Names(|labels|)| ==>
      |Names(|labels|)[j]| >= 5 && Numbered(Piece(Names(|labels|)[j], TagsOf(labels)))
  {
    var n, tags := |labels|, TagsOf(labels);
    hide Numbered, Plain, Piece, Names;
    NamesAreLabels(n);
    forall j | 0 <= j < |Names(n)| ensures |Names(n)[j]| >= 5 && Numbered(Piece(Names(n)[j], tags)) {
      var i :| 1 <= i <= n && Names(n)[j] == Label(i);
      PieceOfLabel(labels, i - 1);
      PieceNumbered(i, labels[i - 1]);
    }
  }

  /** A key that does not read as another one with a statistic. */
  ghost predicate NoStatEnd(id: string) {
    forall before, stat :: IsStat(stat) ==> id != Head(before, stat)
  }

  lemma NoDigitInStat(stat: string)
    requires IsStat(stat)
    ensures forall j :: 0 <= j < |STAT_TAG + stat| ==> !IsDigit((STAT_TAG + stat)[j])
  {
    assert forall j :: 0 <= j < |STAT_TAG| ==> !IsDigit(STAT_TAG[j]);
    assert forall j :: 0 <= j < |stat| ==> !IsDigit(stat[j]);
  }

  lemma MarkInName(id: string, rest: string, k: int)
    requires (forall j :: 0 <= j < |rest| ==> !IsDigit(rest[j])) && MarkAt(id + rest, k)
    ensures MarkAt(id, k)
  {
    var s := id + rest;
    assert s[k..k + 5] == SEPARATOR;
    forall j | |id| <= j < |s| ensures !IsDigit(s[j]) {
      assert s[j] == rest[j - |id|];
    }
    assert id[k..k + 5] == s[k..k + 5];
  }

  lemma PlainHead(id: string, stat: string)
    requires Plain(id) && (stat == "" || IsStat(stat))
    ensures Plain(Head(id, stat))
  {
    if stat != "" {
      NoDigitInStat(stat);
      var head := Head(id, stat);
      forall k ensures !MarkAt(head, k) {
        if MarkAt(head, k) { MarkInName(id, STAT_TAG + stat, k); }
      }
    }
  }

  lemma HeadsSeparate(a: string, s: string, b: string, t: string)
    requires (s == "" || IsStat(s)) && (t == "" || IsStat(t)) && NoStatEnd(a) && NoStatEnd(b)
    requires Head(a, s) == Head(b, t)
    ensures a == b && s == t
  {
    if s != "" && t != "" {
      var h := Head(a, s);
      assert h[|h| - 1] == s[|s| - 1] == t[|t| - 1];
      assert s == t;
      assert h[..|a|] == a && h[..|b|] == b;
    }
  }

  /** For plain names, equal keys mean equal path and statistic. */
  lemma KeysSeparate(w: Walk, a: string, s: string, as': seq<string>, stat: string, x: Float,
                     b: string, t: string, bs: seq<string>, other: string, y: Float)
    requires Plain(a) && Plain(b) && AllPlain(as') && AllPlain(bs) && NoStatEnd(a) && NoStatEnd(b)
    requires (stat == "" || IsStat(stat)) && (other == "" || IsStat(other))
    requires UniqueKey(Metric(w, a, s, StatTags(as', stat), x)) == UniqueKey(Metric(w, b, t, StatTags(bs, other), y))
    ensures a == b && as' == bs && stat == other
  {
    hide UniqueKey, Piece, Join, Plain, Numbered, Names, NoStatEnd, Head, StatTags;
    KeyOfPath(w, a, s, as', stat, x);
    KeyOfPath(w, b, t, bs, other, y);
    PiecesNumbered(as');
    PiecesNumbered(bs);
    NamesAreLabels(|as'|);
    NamesAreLabels(|bs|);
    PlainHead(a, stat);
    PlainHead(b, other);
    JoinedPartsAgree(Head(a, stat), Pieces(Names(|as'|), TagsOf(as')), Head(b, other), Pieces(Names(|bs|), TagsOf(bs)));
    PiecesDetermine(as', bs);
    HeadsSeparate(a, stat, b, other);
  }

  lemma PiecesDetermine(as': seq<string>, bs: seq<string>)
    requires |as'| == |bs|
    requires forall j :: 0 <= j < |Names(|as'|)| ==> |Names(|as'|)[j]| >= 5
    requires Pieces(Names(|as'|), TagsOf(as')) == Pieces(Names(|bs|), TagsOf(bs))
    ensures as' == bs
  {
    hide Names, Piece, TagsOf;
    NamesAreLabels(|as'|);
    forall i | 0 <= i < |as'| ensures as'[i] == bs[i] {
      var j :| 0 <= j < |Names(|as'|)| && Names(|as'|)[j] == Label(i + 1);
      assert Pieces(Names(|as'|), TagsOf(as'))[j] == Pieces(Names(|bs|), TagsOf(bs))[j];
      PieceOfLabel(as', i);
      PieceOfLabel(bs, i);
      SuffixEqual(Itoa(i + 1), as'[i], bs[i]);
    }
  }

  lemma PieceOfLabel(labels: seq<string>, i: nat)
    requires i < |labels|
    ensures |Label(i + 1)| >= 5 && Piece(Label(i + 1), TagsOf(labels)) == Itoa(i + 1) + labels[i]
  {
    TagsOfLabels(labels, i + 1);
    assert Label(i + 1)[5..] == Itoa(i + 1);
  }

  lemma SuffixEqual(p: string, a: string, b: string)
    requires p + a == p + b
    ensures a == b
  {
    assert (p + a)[|p|..] == a && (p + b)[|p|..] == b;
  }

  /** Every name of the document is plain. */
  ghost predicate PlainPaths(ls: seq<Leaf>) {
    forall i :: 0 <= i < |ls| ==> PlainLeaf(ls[i])
  }

  ghost predicate PlainLeaf(l: Leaf) {
    AllPlain(l.path) && l.path != [] && NoStatEnd(l.path[0])
  }

  lemma {:induction false} StatOfLeaf(w: Walk, value: Json, path: seq<string>, stat: string, x: Float)
    requires Holds(w, value, path, stat, x)
    ensures stat == "" || IsStat(stat)
    decreases value
  {
    match value
    case Object(fields) =>
      var i :| 0 <= i < |fields| && fields[i].key == path[0] && Holds(w, fields[i].value, path[1..], stat, x);
      StatOfLeaf(w, fields[i].value, path[1..], stat, x);
    case Array(items) =>
      if HoldsObjects(value) {
        var i :| 0 <= i < |items| && items[i].Object? && Holds(w, items[i], path, stat, x);
        StatOfLeaf(w, items[i], path, stat, x);
      }
    case _ =>
  }

  lemma StatsOfLeaves(w: Walk, fields: seq<Field>)
    ensures var ls := LeavesOf(w, [], fields); forall i :: 0 <= i < |ls| ==> ls[i].stat == "" || IsStat(ls[i].stat)
  {
    hide LeavesOf, Holds, IsStat;
    var ls := LeavesOf(w, [], fields);
    forall i | 0 <= i < |ls| ensures ls[i].stat == "" || IsStat(ls[i].stat) {
      var l := ls[i];
      LeavesOfExact(w, [], fields, l);
      ObjectHolds(w, Object(fields), l.path[0..], l.stat, l.value);
      StatOfLeaf(w, Object(fields), l.path[0..], l.stat, l.value);
    }
  }

  /** Deduplication drops nothing of a regular document with plain names, unless two objects of one array
      hold a leaf at the same path. */
  lemma NothingDropped(w: Walk, top: seq<Field>)
    requires Regular(w, top) && WellFormed(Object(top)) && Separate(w, Object(ChosenFields(w, top)))
    requires PlainPaths(LeavesOf(w, [], ChosenFields(w, top)))
    ensures Dedup(FlattenDocument(w, top)) == FlattenDocument(w, top)
  {
    hide UniqueKey, LeavesOf, PlainLeaf, Firsts, FlattenDocument, Separate, IsStat;
    var ls, out := LeavesOf(w, [], ChosenFields(w, top)), FlattenDocument(w, top);
    DocumentIsLeaves(w, top);
    ChosenWellFormed(w, top);
    TopLeavesDistinct(w, ChosenFields(w, top));
    StatsOfLeaves(w, ChosenFields(w, top));
    forall i, j | 0 <= i < j < |out| ensures UniqueKey(out[i]) != UniqueKey(out[j]) {
      LeavesSeparate(w, ls[i], ls[j]);
    }
    DedupIsFirsts(out);
    FirstsOfDistinct(out, |out|);
    assert out[..|out|] == out;
  }

  ghost function LeafKey(w: Walk, leaf: Leaf): string
    requires leaf.path != []
  {
    UniqueKey(Emit(w, leaf))
  }

  lemma LeavesSeparate(w: Walk, a: Leaf, b: Leaf)
    requires PlainLeaf(a) && PlainLeaf(b) && (a.stat == "" || IsStat(a.stat)) && (b.stat == "" || IsStat(b.stat))
    ensures LeafKey(w, a) == LeafKey(w, b) ==> a.path == b.path && a.stat == b.stat
  {
    hide UniqueKey, Plain, NoStatEnd, StatTags, IsStat;
    assert AllPlain(a.path[1..]) && AllPlain(b.path[1..]);
    if LeafKey(w, a) == LeafKey(w, b) {
      var key, other := a.path[0], b.path[0];
      KeysSeparate(w, key, Emit(w, a).mtype, a.path[1..], a.stat, a.value,
                   other, Emit(w, b).mtype, b.path[1..], b.stat, b.value);
      assert a.path == [key] + a.path[1..] && b.path == [other] + b.path[1..];
    }
  }

  /* Names that collide. */

  /** {a: {b: 1}, a + "label1" + b: 2} */
  function Colliding(a: string, b: string): seq<Field> {
    [Field(a, Object([Field(b, Number(1.0))])), Field(a + (Label(1) + b), Number(2.0))]
  }

  lemma CollidingFlattens(w: Walk, a: string, b: string)
    requires a != "" && Chosen(w, a) && Chosen(w, a + (Label(1) + b))
    ensures var name := a + (Label(1) + b);
      FlattenDocument(w, Colliding(a, b))
        == [Metric(w, a, TypeOf(w, a), TagsOf([b]), Finite(1.0)),
            Metric(w, name, TypeOf(w, name), TagsOf([]), Finite(2.0))]
  {
    hide TagsOf, Label;
    var inner, top := [Field(b, Number(1.0))], Colliding(a, b);
    var name := a + (Label(1) + b);
    assert inner[..0] == [] && top[..0] == [] && top[..1] == [top[0]] && top[..1][..0] == [] && [] + [b] == [b];
    assert name != "" by { assert |name| >= |a|; }
    assert FlattenFields(w, a, [], inner) == FlattenFields(w, a, [], []) + Flatten(w, a, [], b, Number(1.0));
    assert Flatten(w, "", [], a, top[0].value) == FlattenFields(w, a, [], inner);
    assert FlattenFields(w, "", [], top[..1]) == FlattenFields(w, "", [], []) + Flatten(w, "", [], a, top[0].value);
    assert FlattenFields(w, "", [], top) == FlattenFields(w, "", [], top[..1]) + Flatten(w, "", [], name, Number(2.0));
  }

  /** Of the two metrics of this document the second is dropped. */
  lemma KeysCollide(w: Walk, a: string, b: string)
    requires a != "" && Chosen(w, a) && Chosen(w, a + (Label(1) + b))
    ensures var name := a + (Label(1) + b);
      var first := Metric(w, a, TypeOf(w, a), TagsOf([b]), Finite(1.0));
      var second := Metric(w, name, TypeOf(w, name), TagsOf([]), Finite(2.0));
      && FlattenDocument(w, Colliding(a, b)) == [first, second]
      && Dedup(FlattenDocument(w, Colliding(a, b))) == [first]
  {
    hide UniqueKey, FlattenDocument, TagsOf, Chosen, TypeOf;
    CollidingFlattens(w, a, b);
    var name := a + (Label(1) + b);
    KeyBelow(w, a, TypeOf(w, a), b, "", Finite(1.0));
    KeyOfTopLevel(w, name, TypeOf(w, name), "", Finite(2.0));
    var out := FlattenDocument(w, Colliding(a, b));
    DedupOfTwo(out[0], out[1]);
  }

  lemma {:induction false} ItoaLeading(n: nat)
    requires n >= 1
    ensures Itoa(n)[0] >= '1'
  {
    if n >= 10 { ItoaLeading(n / 10); }
  }

  lemma {:induction false} StrLeBehind(p: string, a: string, b: string)
    requires StrLe(a, b)
    ensures StrLe(p + a, p + b)
  {
    if p == "" {
      assert p + a == a && p + b == b;
    } else {
      StrLeBehind(p[1..], a, b);
      assert (p + a)[1..] == p[1..] + a && (p + b)[1..] == p[1..] + b;
    }
  }

  lemma FirstLabelLeast(i: nat)
    requires i >= 1
    ensures StrLe(Label(1), Label(i))
  {
    ItoaLeading(i);
    assert Itoa(1) == "1" && StrLe("1", Itoa(i));
    StrLeBehind("label", Itoa(1), Itoa(i));
  }

  /** label1 sorts before every other label. */
  lemma FirstLabel(n: nat)
    requires n >= 1
    ensures Names(n) != [] && Names(n)[0] == Label(1)
  {
    hide StrLe, Label;
    NamesAreLabels(n);
    var names := Names(n);
    assert names[0] in LabelNames(n);
    var i :| 1 <= i <= n && names[0] == Label(i);
    FirstLabelLeast(i);
    var j :| 0 <= j < |names| && names[j] == Label(1);
    StrLeTotal(names[0], names[0]);
    assert StrLe(names[0], names[j]);
    StrLeAntisymmetric(names[0], Label(1));
  }

  /** The key of a leaf below the top level holds label1 behind its head. */
  lemma KeyHoldsLabel(w: Walk, id: string, mtype: string, labels: seq<string>, stat: string, x: Float)
    requires labels != []
    ensures var key, head := UniqueKey(Metric(w, id, mtype, StatTags(labels, stat), x)), Head(id, stat);
      head <= key && OccursAt(key, Label(1), |head|)
  {
    hide UniqueKey, Names, TagsOf, StatTags, Head;
    var n, tags, head := |labels|, TagsOf(labels), Head(id, stat);
    KeyOfTags(w, id, mtype, labels, stat, x);
    FirstLabel(n);
    ConcatStarts(Names(n), tags);
    var key := head + Concat(Names(n), tags);
    assert key[|head|..|head| + |Label(1)|] == Concat(Names(n), tags)[..|Label(1)|];
  }

  lemma {:induction false} ConcatStarts(names: seq<string>, tags: map<string, string>)
    requires names != []
    ensures |names[0]| <= |Concat(names, tags)| && Concat(names, tags)[..|names[0]|] == names[0]
  {
    if |names| > 1 { ConcatStarts(names[..|names| - 1], tags); }
  }

  lemma KeyOfTopLevel(w: Walk, id: string, mtype: string, stat: string, x: Float)
    ensures UniqueKey(Metric(w, id, mtype, StatTags([], stat), x)) == Head(id, stat)
  {
    hide UniqueKey, Names, StatTags, Head, Concat;
    KeyOfTags(w, id, mtype, [], stat, x);
    ConcatNone(TagsOf([]));
    assert Head(id, stat) + "" == Head(id, stat);
  }

  lemma KeyBelow(w: Walk, id: string, mtype: string, below: string, stat: string, x: Float)
    ensures UniqueKey(Metric(w, id, mtype, StatTags([below], stat), x)) == Head(id, stat) + (Label(1) + below)
  {
    hide UniqueKey, Names, StatTags, Head, Concat, TagsOf;
    KeyOfTags(w, id, mtype, [below], stat, x);
    NamesOfOne();
    TagsOfLabels([below], 1);
    ConcatOne(Label(1), TagsOf([below]));
  }

  /** Some document has a number or boolean at this top-level key and another leaf with the same key for the
      deduplication, both to be collected. */
  ghost predicate CanCollide(w: Walk, name: string) {
    exists top: seq<Field>, other: Leaf, x :: CollidesIn(w, name, top, other, x)
  }

  ghost predicate CollidesIn(w: Walk, name: string, top: seq<Field>, other: Leaf, x: Float) {
    && Regular(w, top) && WellFormed(Object(top)) && Chosen(w, name)
    && other.path != [] && Chosen(w, other.path[0]) && (other.path != [name] || other.stat != "")
    && Holds(w, Object(top), [name], "", x) && Holds(w, Object(top), other.path, other.stat, other.value)
    && LeafKey(w, Leaf([name], "", x)) == LeafKey(w, other)
  }

  /** The name is the head of a collected leaf followed by label1, or that of a statistic. */
  ghost predicate ReadsAs(w: Walk, name: string, id: string, stat: string) {
    && Chosen(w, id) && (stat == "" || IsStat(stat))
    && ((id != "" && Head(id, stat) <= name && OccursAt(name, Label(1), |Head(id, stat)|))
        || (stat != "" && name == Head(id, stat)))
  }

  /** A top-level name can collide if and only if it reads as the key of another collected leaf. */
  lemma TopLevelCollision(w: Walk, name: string)
    ensures CanCollide(w, name) <==> Chosen(w, name) && exists id, stat :: ReadsAs(w, name, id, stat)
  {
    hide CollidesIn, ReadsAs;
    if CanCollide(w, name) {
      var top: seq<Field>, other: Leaf, x :| CollidesIn(w, name, top, other, x);
      CollisionReads(w, name, top, other, x);
      assert ReadsAs(w, name, other.path[0], other.stat);
    }
    if Chosen(w, name) && exists id, stat :: ReadsAs(w, name, id, stat) {
      var id, stat :| ReadsAs(w, name, id, stat);
      ReadingCollides(w, name, id, stat);
    }
  }

  lemma CollisionReads(w: Walk, name: string, top: seq<Field>, other: Leaf, x: Float)
    requires CollidesIn(w, name, top, other, x)
    ensures Chosen(w, name) && other.path != [] && ReadsAs(w, name, other.path[0], other.stat)
  {
    hide UniqueKey, TagsOf, StatTags, Head, Holds, Regular, WellFormed, IsStat;
    var id, labels := other.path[0], other.path[1..];
    assert other.path == [id] + labels && [name][1..] == [];
    StatOfLeaf(w, Object(top), other.path, other.stat, other.value);
    KeyOfTopLevel(w, name, TypeOf(w, name), "", x);
    PlainIsHead(name);
    var mtype := Emit(w, other).mtype;
    if labels == [] {
      KeyOfTopLevel(w, id, mtype, other.stat, other.value);
      PlainIsHead(id);
    } else {
      KeyHoldsLabel(w, id, mtype, labels, other.stat, other.value);
      NotBelowEmptyKey(w, top, other.path, other.stat, other.value);
    }
  }

  lemma PlainIsHead(id: string)
    ensures Head(id, "") == id
  {}

  lemma NotBelowEmptyKey(w: Walk, top: seq<Field>, path: seq<string>, stat: string, y: Float)
    requires Regular(w, top) && |path| >= 2 && Chosen(w, path[0]) && Holds(w, Object(top), path, stat, y)
    ensures path[0] != ""
  {
    var i :| 0 <= i < |top| && top[i].key == path[0] && Holds(w, top[i].value, path[1..], stat, y);
    LeafHeld(w, top[i].value, path[1..], stat, y);
    assert Nested(top[i].value);
  }

  /** A value with this statistic, or a number. */
  function ValueWith(stat: string): Json {
    if stat == "" then Number(1.0) else Array([Number(1.0)])
  }

  lemma ParseOne(w: Walk, item: Json)
    requires item.Number?
    ensures ParseItems(w, [item]) == Some([Finite(item.r)])
  {
    assert [item][..0] == [] && ParseItems(w, []) == Some([]);
    assert ParseItems(w, [item][..0]) == Some([]);
    assert [] + [Finite(item.r)] == [Finite(item.r)];
  }

  lemma ValueHolds(w: Walk, stat: string) returns (x: Float)
    requires stat == "" || IsStat(stat)
    ensures Holds(w, ValueWith(stat), [], stat, x) && WellFormed(ValueWith(stat)) && !Nested(ValueWith(stat))
  {
    if stat == "" {
      x := Finite(1.0);
    } else {
      hide IsStat;
      var items := [Number(1.0)];
      ParseOne(w, Number(1.0));
      var stats := Stats(w, items);
      var i := if stat == "min" then 0 else if stat == "max" then 1 else if stat == "avg" then 2 else 3;
      assert stats[i].0 == stat;
      x := stats[i].1;
      assert stats[i] == (stat, x);
    }
  }

  /** Two top-level fields, the second a number. */
  lemma TwoFields(w: Walk, id: string, value: Json, name: string, path: seq<string>, stat: string, x: Float)
    requires id != name && WellFormed(value) && Holds(w, value, path, stat, x)
    requires (id == "" ==> !Nested(value))
    ensures var top := [Field(id, value), Field(name, Number(2.0))];
      && Regular(w, top) && WellFormed(Object(top))
      && Holds(w, Object(top), [name], "", Finite(2.0)) && Holds(w, Object(top), [id] + path, stat, x)
  {
    hide Chosen;
    var top := [Field(id, value), Field(name, Number(2.0))];
    assert WellFormed(Number(2.0));
    assert top[0].key == ([id] + path)[0] && ([id] + path)[1..] == path;
    assert top[1].key == [name][0] && [name][1..] == [];
    assert Holds(w, Number(2.0), [], "", Finite(2.0));
  }

  lemma ReadingCollides(w: Walk, name: string, id: string, stat: string)
    requires Chosen(w, name) && ReadsAs(w, name, id, stat)
    ensures CanCollide(w, name)
  {
    hide UniqueKey, Regular, StatTags, WellFormed, Head, IsStat, Label;
    var y := ValueHolds(w, stat);
    var head := Head(id, stat);
    HeadLonger(id, stat);
    KeyOfTopLevel(w, name, TypeOf(w, name), "", Finite(2.0));
    PlainIsHead(name);
    assert [name][1..] == [] && [id][1..] == [];
    if stat != "" && name == head {
      TwoFields(w, id, ValueWith(stat), name, [], stat, y);
      KeyOfTopLevel(w, id, "gauge", stat, y);
      assert [id] + [] == [id];
      var top := [Field(id, ValueWith(stat)), Field(name, Number(2.0))];
      assert CollidesIn(w, name, top, Leaf([id], stat, y), Finite(2.0));
    } else {
      var b := name[|head| + |Label(1)|..];
      assert name == head + (Label(1) + b);
      LabelLong();
      var inner := [Field(b, ValueWith(stat))];
      InnerHolds(w, b, stat, y);
      TwoFields(w, id, Object(inner), name, [b], stat, y);
      KeyBelow(w, id, Emit(w, Leaf([id, b], stat, y)).mtype, b, stat, y);
      assert [id] + [b] == [id, b] && [id, b][1..] == [b];
      var top := [Field(id, Object(inner)), Field(name, Number(2.0))];
      assert CollidesIn(w, name, top, Leaf([id, b], stat, y), Finite(2.0));
    }
  }

  lemma HeadLonger(id: string, stat: string)
    ensures |Head(id, stat)| >= |id| && (stat != "" ==> |Head(id, stat)| > |id|)
  {}

  lemma LabelLong()
    ensures |Label(1)| >= 5
  {}

  lemma InnerHolds(w: Walk, b: string, stat: string, y: Float)
    requires Holds(w, ValueWith(stat), [], stat, y) && WellFormed(ValueWith(stat))
    ensures var inner := Object([Field(b, ValueWith(stat))]); Holds(w, inner, [b], stat, y) && WellFormed(inner)
  {
    var fields := [Field(b, ValueWith(stat))];
    assert fields[0].key == [b][0] && [b][1..] == [];
  }

  lemma DedupOfTwo(a: MetricHeader, b: MetricHeader)
    requires a.data != [] && b.data != [] && UniqueKey(a) == UniqueKey(b)
    ensures Dedup([a, b]) == [a]
  {
    hide UniqueKey;
    assert [a, b][..1] == [a] && [a][..0] == [];
    assert ReceiveAll([a]) == Receive(Kept([], {}), a);
    assert ReceiveAll([a, b]) == Receive(ReceiveAll([a]), b);
  }

  lemma ConcatNone(tags: map<string, string>)
    ensures Names(0) == [] && Concat(Names(0), tags) == ""
  {
    NamesAreLabels(0);
  }

  lemma NamesOfOne()
    ensures Names(1) == [Label(1)]
  {
    hide Names;
    NamesAreLabels(1);
    assert Names(1)[0] in LabelNames(1);
  }

  lemma ConcatOne(name: string, tags: map<string, string>)
    ensures Concat([name], tags) == name + (if name in tags then tags[name] else "")
  {
    assert [name][..0] == [];
  }

  /* The channel: the walk sends, the goroutine receives and processes, the walk closes the
     channel and returns the shared list. Sending on an unbuffered channel waits for the
     goroutine to have finished with the metric before. */

  datatype Channel = Channel(
    pending: seq<MetricHeader>, inHand: Option<MetricHeader>, kept: Kept,
    closed: bool, result: Option<seq<MetricHeader>>)

  datatype Move = Send | Process | Close | Return

  predicate CanMove(c: Channel, m: Move) {
    match m
    case Send => c.pending != [] && c.inHand.None?
    case Process => c.inHand.Some?
    case Close => c.pending == [] && !c.closed
    case Return => c.closed && c.result.None?
  }

  ghost function After(c: Channel, m: Move): Channel
    requires CanMove(c, m)
  {
    match m
    case Send => c.(pending := c.pending[1..], inHand := Some(c.pending[0]))
    case Process => c.(inHand := None, kept := Receive(c.kept, c.inHand.value))
    case Close => c.(closed := true)
    case Return => c.(result := Some(c.kept.metrics))
  }

  ghost function Opened(ms: seq<MetricHeader>): Channel {
    Channel(ms, None, Kept([], {}), false, None)
  }

  ghost predicate IsSchedule(ms: seq<MetricHeader>, moves: seq<Move>, states: seq<Channel>) {
    && |states| == |moves| + 1 && states[0] == Opened(ms)
    && forall i :: 0 <= i < |moves| ==> CanMove(states[i], moves[i]) && states[i + 1] == After(states[i], moves[i])
  }

  /** Everything sent has been processed, but for the metric in hand. */
  ghost predicate InStep(ms: seq<MetricHeader>, c: Channel) {
    var sent := |ms| - |c.pending|;
    var done := if c.inHand.Some? then sent - 1 else sent;
    && 0 <= done && sent >= 0 && c.pending == ms[sent..]
    && (c.inHand.Some? ==> c.inHand.value == ms[sent - 1])
    && c.kept == ReceiveAll(ms[..done])
    && (c.closed ==> c.pending == [])
    && (c.result.Some? ==> c.result.value == Dedup(ms) || (ms != [] && c.result.value == Dedup(ms[..|ms| - 1])))
  }

  lemma MoveKeepsStep(ms: seq<MetricHeader>, c: Channel, m: Move)
    requires InStep(ms, c) && CanMove(c, m)
    ensures InStep(ms, After(c, m))
  {
    hide Receive;
    var sent := |ms| - |c.pending|;
    match m
    case Send =>
    case Process =>
      assert ms[..sent][..sent - 1] == ms[..sent - 1];
    case Close =>
    case Return =>
      assert ms[..|ms|] == ms;
  }

  /** Whatever the schedule, the list returned is the deduplication of all emitted metrics or of
      all but the last. */
  lemma {:induction false} EveryScheduleReturns(ms: seq<MetricHeader>, moves: seq<Move>, states: seq<Channel>, n: nat)
    requires IsSchedule(ms, moves, states) && n < |states|
    ensures InStep(ms, states[n])
    ensures states[n].result.Some? ==>
      var r := states[n].result.value; r == Dedup(ms) || (ms != [] && r == Dedup(ms[..|ms| - 1]))
  {
    if n == 0 {
      assert ms[..0] == [];
    } else {
      EveryScheduleReturns(ms, moves, states, n - 1);
      MoveKeepsStep(ms, states[n - 1], moves[n - 1]);
    }
  }

  /** Every list can be sent up to its last metric, the goroutine still holding it. */
  lemma {:induction false} SendAll(ms: seq<MetricHeader>, k: nat) returns (moves: seq<Move>, states: seq<Channel>)
    requires 1 <= k <= |ms|
    ensures IsSchedule(ms, moves, states)
    ensures var c := states[|moves|]; c.pending == ms[k..] && c.inHand.Some? && !c.closed && c.result.None?
  {
    hide Receive;
    if k == 1 {
      moves := [Send];
      states := [Opened(ms), After(Opened(ms), Send)];
    } else {
      moves, states := SendAll(ms, k - 1);
      var c := states[|moves|];
      var c' := After(c, Process);
      moves := moves + [Process, Send];
      states := states + [c', After(c', Send)];
    }
  }

  /** Both lists are returned by some schedule: the last metric is missing when the walk returns before
      the goroutine has processed it. */
  lemma BothReturnsHappen(ms: seq<MetricHeader>, short: bool) returns (moves: seq<Move>, states: seq<Channel>)
    requires ms != []
    ensures IsSchedule(ms, moves, states)
    ensures states[|moves|].result == Some(Dedup(if short then ms[..|ms| - 1] else ms))
  {
    hide Receive, Dedup;
    moves, states := SendAll(ms, |ms|);
    var c := states[|moves|];
    EveryScheduleReturns(ms, moves, states, |moves|);
    if short {
      InHand(ms, c);
    } else {
      MoveKeepsStep(ms, c, Process);
      c := After(c, Process);
      moves, states := moves + [Process], states + [c];
      AllDone(ms, c);
    }
    var closed := After(c, Close);
    moves, states := moves + [Close, Return], states + [closed, After(closed, Return)];
  }

  lemma InHand(ms: seq<MetricHeader>, c: Channel)
    requires InStep(ms, c) && ms != [] && c.pending == ms[|ms|..] && c.inHand.Some?
    ensures c.kept.metrics == Dedup(ms[..|ms| - 1])
  {}

  lemma AllDone(ms: seq<MetricHeader>, c: Channel)
    requires InStep(ms, c) && c.pending == [] && c.inHand.None?
    ensures c.kept.metrics == Dedup(ms)
  {
    assert ms[..|ms|] == ms;
  }

  /** The last metric is the first of its series. */
  ghost predicate LastMatters(ms: seq<MetricHeader>) {
    ms != [] && IsFirst(ms, |ms| - 1)
  }

  lemma ShortAgrees(ms: seq<MetricHeader>)
    requires ms != []
    ensures Dedup(ms[..|ms| - 1]) == Dedup(ms) <==> !LastMatters(ms)
  {
    hide IsFirst, ReceiveAll;
    ReceiveIsFirsts(ms, |ms|);
    ReceiveIsFirsts(ms, |ms| - 1);
    assert ms[..|ms|] == ms;
  }

  ghost predicate AlwaysComplete(ms: seq<MetricHeader>) {
    forall moves: seq<Move>, states: seq<Channel>, n: nat ::
      Returned(ms, moves, states, n) ==> states[n].result.value == Dedup(ms)
  }

  ghost predicate Returned(ms: seq<MetricHeader>, moves: seq<Move>, states: seq<Channel>, n: nat) {
    IsSchedule(ms, moves, states) && n < |states| && states[n].result.Some?
  }

  /** Every schedule that returns gives the deduplication of all metrics if and only if there is none,
      or the last one repeats a series or has no data. */
  lemma CompleteExactly(ms: seq<MetricHeader>)
    ensures AlwaysComplete(ms) <==> !LastMatters(ms)
  {
    hide Dedup, IsSchedule, IsFirst;
    if ms != [] { ShortAgrees(ms); }
    if LastMatters(ms) {
      var moves, states := BothReturnsHappen(ms, true);
      ScheduleLength(ms, moves, states);
      assert Returned(ms, moves, states, |moves|);
    } else {
      forall moves: seq<Move>, states: seq<Channel>, n: nat | Returned(ms, moves, states, n)
        ensures states[n].result.value == Dedup(ms)
      {
        EveryScheduleReturns(ms, moves, states, n);
      }
    }
  }

  lemma ScheduleLength(ms: seq<MetricHeader>, moves: seq<Move>, states: seq<Channel>)
    requires IsSchedule(ms, moves, states)
    ensures |states| == |moves| + 1
  {}
}
