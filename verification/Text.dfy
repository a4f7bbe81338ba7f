/** String routines the agent takes from Go's library: searching, splitting, joining,
    ordering and decimal printing, with the laws the other modules rely on. */
module Text {

  predicate OccursAt(s: string, sub: string, k: int) {
    0 <= k && k + |sub| <= |s| && s[k..k + |sub|] == sub
  }

  lemma OccursInTail(s: string, sub: string, k: int)
    requires s != ""
    ensures OccursAt(s[1..], sub, k) ==> OccursAt(s, sub, k + 1)
    ensures k >= 0 && OccursAt(s, sub, k + 1) ==> OccursAt(s[1..], sub, k)
  {
    if k >= 0 && k + 1 + |sub| <= |s| {
      assert s[1..][k..k + |sub|] == s[k + 1..k + 1 + |sub|];
    }
  }

  /** Position of the first occurrence of `sep` in `s`, or -1. */
  function Index(s: string, sep: string): (r: int)
    requires sep != ""
    ensures r == -1 || OccursAt(s, sep, r)
    ensures forall k :: OccursAt(s, sep, k) ==> 0 <= r <= k
  {
    if |s| < |sep| then -1
    else if OccursAt(s, sep, 0) then 0
    else
      var rest := Index(s[1..], sep);
      OccursInTail(s, sep, rest);
      assert forall k :: OccursAt(s, sep, k) ==> 0 <= rest <= k - 1 by {
        forall k | OccursAt(s, sep, k) ensures 0 <= rest <= k - 1 { OccursInTail(s, sep, k - 1); }
      }
      if rest < 0 then -1 else rest + 1
  }

  predicate Contains(s: string, sub: string)
    requires sub != ""
  {
    Index(s, sub) >= 0
  }

  /** `strings.SplitN`; a negative `n` means no limit, as in `strings.Split`. */
  function SplitN(s: string, sep: string, n: int): (parts: seq<string>)
    requires sep != "" && n != 0
    ensures |parts| >= 1
    ensures n > 0 ==> |parts| <= n
    decreases |s|
  {
    var i := Index(s, sep);
    if n == 1 || i < 0 then [s]
    else [s[..i]] + SplitN(s[i + |sep|..], sep, n - 1)
  }

  function Join(parts: seq<string>, sep: string): string
    requires |parts| >= 1
  {
    if |parts| == 1 then parts[0] else parts[0] + sep + Join(parts[1..], sep)
  }

  /** No occurrence of `sep` can begin inside `x` when `x` is followed by `sep`. */
  ghost predicate SepFree(x: string, sep: string)
    requires sep != ""
  {
    Absent(x + sep[..|sep| - 1], sep)
  }

  ghost predicate Absent(s: string, sub: string) {
    forall k :: !OccursAt(s, sub, k)
  }

  lemma SepFreeChar(x: string, c: char)
    requires c !in x
    ensures SepFree(x, [c])
  {
    var y := x + [c][..0];
    assert y == x;
    forall k | 0 <= k && k + 1 <= |y| ensures !OccursAt(y, [c], k) {
      assert y[k..k + 1][0] == x[k] != c;
    }
  }

  lemma IndexOfSeparator(x: string, sep: string, rest: string)
    requires sep != "" && SepFree(x, sep)
    ensures Index(x + sep + rest, sep) == |x|
  {
    var s, y := x + sep + rest, x + sep[..|sep| - 1];
    assert OccursAt(s, sep, |x|);
    forall k | 0 <= k < |x| ensures !OccursAt(s, sep, k) {
      assert s[k..k + |sep|] == y[k..k + |sep|];
      assert !OccursAt(y, sep, k);
    }
  }

  lemma SepFreeHasNone(x: string, sep: string)
    requires sep != "" && SepFree(x, sep)
    ensures Index(x, sep) < 0
  {
    var y := x + sep[..|sep| - 1];
    forall k | 0 <= k && k + |sep| <= |x| ensures !OccursAt(x, sep, k) {
      assert y[k..k + |sep|] == x[k..k + |sep|];
      assert !OccursAt(y, sep, k);
    }
  }

  lemma SplitOnce(first: string, sep: string, rest: string, n: int)
    requires sep != "" && SepFree(first, sep) && n != 0 && n != 1
    ensures SplitN(first + sep + rest, sep, n) == [first] + SplitN(rest, sep, n - 1)
  {
    hide SepFree;
    IndexOfSeparator(first, sep, rest);
    assert (first + sep + rest)[|first| + |sep|..] == rest;
    assert (first + sep + rest)[..|first|] == first;
  }

  /** Splitting inverts joining. */
  lemma {:induction false} SplitJoin(parts: seq<string>, sep: string, n: int)
    requires sep != "" && |parts| >= 1
    requires forall k :: 0 <= k < |parts| ==> SepFree(parts[k], sep)
    requires n < 0 || n >= |parts|
    ensures SplitN(Join(parts, sep), sep, n) == parts
    decreases |parts|
  {
    hide SepFree, Index;
    if |parts| == 1 {
      SepFreeHasNone(parts[0], sep);
    } else {
      SplitJoin(parts[1..], sep, n - 1);
      SplitOnce(parts[0], sep, Join(parts[1..], sep), n);
    }
  }

  /** Only `first` has to be free of the separator when the limit is two. */
  lemma SplitFirst(first: string, sep: string, rest: string)
    requires sep != "" && SepFree(first, sep)
    ensures SplitN(first + sep + rest, sep, 2) == [first, rest]
  {
    SplitOnce(first, sep, rest, 2);
  }

  lemma JoinInjective(xs: seq<string>, ys: seq<string>, sep: string)
    requires sep != "" && |xs| >= 1 && |ys| >= 1
    requires forall k :: 0 <= k < |xs| ==> SepFree(xs[k], sep)
    requires forall k :: 0 <= k < |ys| ==> SepFree(ys[k], sep)
    requires Join(xs, sep) == Join(ys, sep)
    ensures xs == ys
  {
    SplitJoin(xs, sep, -1);
    SplitJoin(ys, sep, -1);
  }

  /* Lexicographic order, and sort.Strings as insertion sort. */

  predicate StrLe(a: string, b: string) {
    a == "" || (b != "" && (a[0] < b[0] || (a[0] == b[0] && StrLe(a[1..], b[1..]))))
  }

  lemma StrLeTotal(a: string, b: string)
    ensures StrLe(a, b) || StrLe(b, a)
  {}

  lemma {:induction false} StrLeAntisymmetric(a: string, b: string)
    requires StrLe(a, b) && StrLe(b, a)
    ensures a == b
  {
    if a != "" {
      StrLeAntisymmetric(a[1..], b[1..]);
      assert a == [a[0]] + a[1..] && b == [b[0]] + b[1..];
    }
  }

  lemma StrLeTransitive(a: string, b: string, c: string)
    requires StrLe(a, b) && StrLe(b, c)
    ensures StrLe(a, c)
  {}

  predicate Sorted(s: seq<string>) {
    forall i, j :: 0 <= i < j < |s| ==> StrLe(s[i], s[j])
  }

  function Insert(x: string, s: seq<string>): (r: seq<string>)
    requires Sorted(s)
    ensures Sorted(r) && multiset(r) == multiset(s) + multiset{x}
  {
    if s == [] then [x]
    else if StrLe(x, s[0]) then
      (assert forall j :: 0 <= j < |s| ==> StrLe(x, s[j]) by {
         forall j | 0 <= j < |s| ensures StrLe(x, s[j]) {
           if j > 0 { StrLeTransitive(x, s[0], s[j]); }
         }
       }
       [x] + s)
    else
      assert s == [s[0]] + s[1..];
      var rest := Insert(x, s[1..]);
      (assert forall j :: 0 <= j < |rest| ==> StrLe(s[0], rest[j]) by {
         StrLeTotal(x, s[0]);
         forall j | 0 <= j < |rest| ensures StrLe(s[0], rest[j]) {
           assert rest[j] in multiset(rest);
           assert rest[j] == x || rest[j] in multiset(s[1..]);
         }
       }
       [s[0]] + rest)
  }

  function SortStrings(s: seq<string>): (r: seq<string>)
    ensures Sorted(r) && multiset(r) == multiset(s)
  {
    if s == [] then []
    else
      assert s == [s[0]] + s[1..];
      Insert(s[0], SortStrings(s[1..]))
  }

  lemma FirstIsLeast(a: seq<string>, x: string)
    requires Sorted(a) && x in multiset(a)
    ensures a != [] && StrLe(a[0], x)
  {
    assert x in a;
    StrLeTotal(x, x);
  }

  lemma DropFirst(a: seq<string>)
    requires a != [] && Sorted(a)
    ensures multiset(a[1..]) == multiset(a) - multiset{a[0]} && Sorted(a[1..])
  {
    assert a == [a[0]] + a[1..];
  }

  /** A sorted sequence is determined by its elements. */
  lemma {:induction false} SortedUnique(a: seq<string>, b: seq<string>)
    requires Sorted(a) && Sorted(b) && multiset(a) == multiset(b)
    ensures a == b
    decreases |a|
  {
    assert |a| == |multiset(a)| == |multiset(b)| == |b|;
    if a != [] {
      assert a[0] in multiset(a) && b[0] in multiset(b);
      FirstIsLeast(a, b[0]);
      FirstIsLeast(b, a[0]);
      StrLeAntisymmetric(a[0], b[0]);
      DropFirst(a);
      DropFirst(b);
      SortedUnique(a[1..], b[1..]);
      assert a == [a[0]] + a[1..] && b == [b[0]] + b[1..];
    }
  }

  /** `keys` lists every element of `s` once, in some order: one possible map iteration. */
  ghost predicate Enumerates<T>(keys: seq<T>, s: set<T>) {
    && (forall k :: k in s ==> k in keys)
    && (forall i :: 0 <= i < |keys| ==> keys[i] in s)
    && (forall i, j :: 0 <= i < j < |keys| ==> keys[i] != keys[j])
  }

  lemma EnumeratesNone<T>()
    ensures Enumerates<T>([], {})
  {}

  lemma EnumeratesAppend<T>(keys: seq<T>, s: set<T>, k: T)
    requires Enumerates(keys, s) && k !in s
    ensures Enumerates(keys + [k], s + {k})
  {}

  lemma {:induction false} EnumeratesMultiset<T>(keys: seq<T>, s: set<T>)
    requires Enumerates(keys, s)
    ensures multiset(keys) == multiset(s)
    decreases |keys|
  {
    if keys == [] {
      assert s == {};
    } else {
      assert keys == [keys[0]] + keys[1..];
      assert keys[0] !in keys[1..];
      EnumeratesMultiset(keys[1..], s - {keys[0]});
    }
  }

  /** Sorting removes the dependence on the iteration order. */
  lemma SortedEnumerationsAgree(a: seq<string>, b: seq<string>, s: set<string>)
    requires Enumerates(a, s) && Enumerates(b, s)
    ensures SortStrings(a) == SortStrings(b)
  {
    EnumeratesMultiset(a, s);
    EnumeratesMultiset(b, s);
    SortedUnique(SortStrings(a), SortStrings(b));
  }

  /** The sorted elements of a set; the enumeration chosen does not matter. */
  ghost function SortedKeys(s: set<string>): (r: seq<string>)
    ensures forall k :: k in r <==> k in s
  {
    SortedElements(s);
    SortStrings(Enumeration(s))
  }

  lemma SortedElements(s: set<string>)
    ensures forall k :: k in SortStrings(Enumeration(s)) <==> k in s
  {
    var e := Enumeration(s);
    forall k ensures k in SortStrings(e) <==> k in s {
      MultisetMember(SortStrings(e), k);
      MultisetMember(e, k);
    }
  }

  lemma MultisetMember<T>(s: seq<T>, k: T)
    ensures k in s <==> k in multiset(s)
  {}

  lemma SortedKeysDistinct(s: set<string>)
    ensures var r := SortedKeys(s); forall i, j :: 0 <= i < j < |r| ==> r[i] != r[j]
  {
    var r := SortedKeys(s);
    EnumeratesMultiset(Enumeration(s), s);
    forall i, j | 0 <= i < j < |r| ensures r[i] != r[j] {
      RepeatedElement(r, i, j);
    }
  }

  lemma SortedKeysSorted(s: set<string>)
    ensures Sorted(SortedKeys(s))
  {
    hide Sorted, Enumeration;
  }

  /** A strictly sorted list is what sorting its elements gives. */
  lemma SortedKeysOf(r: seq<string>)
    requires Sorted(r) && forall i, j :: 0 <= i < j < |r| ==> r[i] != r[j]
    ensures SortedKeys(set k | k in r) == r
  {
    hide Sorted, StrLe;
    var s := set k | k in r;
    EnumeratesMultiset(r, s);
    EnumeratesMultiset(Enumeration(s), s);
    SortedKeysSorted(s);
    SortedUnique(SortedKeys(s), r);
  }

  lemma RepeatedElement(r: seq<string>, i: nat, j: nat)
    requires i < j < |r|
    ensures r[i] == r[j] ==> multiset(r)[r[j]] >= 2
  {
    assert r == r[..j] + r[j..];
    assert r[i] in r[..j] && r[j] in r[j..] by { assert r[..j][i] == r[i] && r[j..][0] == r[j]; }
    MultisetMember(r[..j], r[i]);
    MultisetMember(r[j..], r[j]);
  }

  ghost function Enumeration(s: set<string>): (r: seq<string>)
    ensures Enumerates(r, s)
  {
    if s == {} then [] else
      var k :| k in s;
      [k] + Enumeration(s - {k})
  }

  /** Iterating over a map: any order may come out. */
  method KeysInSomeOrder(s: set<string>) returns (keys: seq<string>)
    ensures Enumerates(keys, s)
  {
    keys := [];
    var todo := s;
    while todo != {}
      invariant todo <= s && Enumerates(keys, s - todo)
      decreases todo
    {
      var k :| k in todo;
      todo := todo - {k};
      keys := keys + [k];
    }
  }

  /* Decimal printing. */

  function Itoa(n: nat): (r: string)
    ensures |r| >= 1 && forall i :: 0 <= i < |r| ==> '0' <= r[i] <= '9'
  {
    var digit := ['0' + (n % 10) as char];
    if n < 10 then digit else Itoa(n / 10) + digit
  }

  function Decimal(n: int): string {
    if n < 0 then "-" + Itoa(-n) else Itoa(n)
  }

  lemma {:induction false} ItoaInjective(a: nat, b: nat)
    requires Itoa(a) == Itoa(b)
    ensures a == b
  {
    var s, t := Itoa(a), Itoa(b);
    assert s[|s| - 1] == t[|t| - 1];
    assert a % 10 == b % 10;
    if a >= 10 && b >= 10 {
      assert Itoa(a / 10) == s[..|s| - 1] == t[..|t| - 1] == Itoa(b / 10);
      ItoaInjective(a / 10, b / 10);
    }
  }
}
