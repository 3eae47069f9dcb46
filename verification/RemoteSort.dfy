/** The order of a remote directory listing (`sortRemoteEntries` in
    `src/components/RemoteFilePanel.tsx`). */
module RemoteSort {
  import opened Wrappers

  datatype Entry = Entry(name: string, path: string, kind: string, size: Option<int>, modifiedTime: Option<int>)

  datatype Key = Name | Kind | Size | Modified

  datatype Sort = Sort(key: Key, ascending: bool)

  /** An entry with its place in the listing that is sorted. */
  datatype Keyed = Keyed(entry: Entry, index: nat)

  /** A comparison of texts, as `localeCompare`: only its sign means anything. */
  type TextOrder = (string, string) -> int

  ghost predicate TotalPreorder(text: TextOrder) {
    && (forall a, b :: text(a, b) < 0 <==> text(b, a) > 0)
    && (forall a, b, c :: text(a, b) <= 0 && text(b, c) <= 0 ==> text(a, c) <= 0)
  }

  // --- The comparator ---

  function Multiplier(sort: Sort): int {
    if sort.ascending then 1 else -1
  }

  function CompareOptional(left: Option<int>, right: Option<int>, multiplier: int): int {
    if left.None? || right.None? then
      if left.None? && right.None? then 0
      else (if left.None? then 1 else -1) * multiplier
    else
      left.value - right.value
  }

  function CompareField(text: TextOrder, left: Entry, right: Entry, key: Key, multiplier: int): int {
    match key
    case Name => text(left.name, right.name)
    case Kind => text(left.kind, right.kind)
    case Size => CompareOptional(left.size, right.size, multiplier)
    case Modified => CompareOptional(left.modifiedTime, right.modifiedTime, multiplier)
  }

  predicate IsDirectory(e: Entry) {
    e.kind == "directory"
  }

  function Compare(text: TextOrder, sort: Sort, left: Keyed, right: Keyed): int {
    if IsDirectory(left.entry) != IsDirectory(right.entry) then
      if IsDirectory(left.entry) then -1 else 1
    else
      var compared := CompareField(text, left.entry, right.entry, sort.key, Multiplier(sort));
      if compared != 0 then compared * Multiplier(sort)
      else
        var byName := text(left.entry.name, right.entry.name);
        if byName != 0 then byName else left.index - right.index
  }

  // --- It is a strict total order ---

  function Lex(first: int, second: int): int {
    if first != 0 then first else second
  }

  /** `ac` follows from `ab` and `bc` as in a total preorder. */
  predicate Chains(ab: int, bc: int, ac: int) {
    && (ab <= 0 && bc <= 0 ==> ac <= 0 && (ab < 0 || bc < 0 ==> ac < 0))
    && (ab >= 0 && bc >= 0 ==> ac >= 0 && (ab > 0 || bc > 0 ==> ac > 0))
  }

  lemma LexChains(ab: int, bc: int, ac: int, ab': int, bc': int, ac': int)
    requires Chains(ab, bc, ac) && Chains(ab', bc', ac')
    ensures Chains(Lex(ab, ab'), Lex(bc, bc'), Lex(ac, ac'))
  {
  }

  lemma TextChains(text: TextOrder, a: string, b: string, c: string)
    requires TotalPreorder(text)
    ensures Chains(text(a, b), text(b, c), text(a, c)) && text(a, a) == 0
    ensures text(a, b) == 0 <==> text(b, a) == 0
  {
    assert text(a, b) < 0 <==> text(b, a) > 0;
    assert text(b, c) < 0 <==> text(c, b) > 0;
    assert text(a, c) < 0 <==> text(c, a) > 0;
    assert text(c, b) <= 0 && text(b, a) <= 0 ==> text(c, a) <= 0;
    assert text(a, b) <= 0 && text(b, c) <= 0 ==> text(a, c) <= 0;
    assert text(c, a) <= 0 && text(a, b) <= 0 ==> text(c, b) <= 0;
    assert text(b, c) <= 0 && text(c, a) <= 0 ==> text(b, a) <= 0;
    assert text(b, a) <= 0 && text(a, c) <= 0 ==> text(b, c) <= 0;
    assert text(a, c) <= 0 && text(c, b) <= 0 ==> text(a, b) <= 0;
  }

  function Group(left: Entry, right: Entry): int {
    if IsDirectory(left) == IsDirectory(right) then 0 else if IsDirectory(left) then -1 else 1
  }

  function Field(text: TextOrder, sort: Sort, left: Entry, right: Entry): int {
    CompareField(text, left, right, sort.key, Multiplier(sort)) * Multiplier(sort)
  }

  lemma CompareIsLex(text: TextOrder, sort: Sort, left: Keyed, right: Keyed)
    ensures Compare(text, sort, left, right) ==
      Lex(Group(left.entry, right.entry),
          Lex(Field(text, sort, left.entry, right.entry),
              Lex(text(left.entry.name, right.entry.name), left.index - right.index)))
  {
  }

  lemma FieldChains(text: TextOrder, sort: Sort, a: Entry, b: Entry, c: Entry)
    requires TotalPreorder(text)
    ensures Chains(Field(text, sort, a, b), Field(text, sort, b, c), Field(text, sort, a, c))
    ensures Field(text, sort, a, b) < 0 <==> Field(text, sort, b, a) > 0
  {
    match sort.key
    case Name => TextChains(text, a.name, b.name, c.name);
    case Kind => TextChains(text, a.kind, b.kind, c.kind);
    case _ =>
  }

  /** Whatever the key and direction, the comparator is a strict total order on entries in
      different places, given only that text comparison is a total preorder. */
  lemma StrictTotalOrder(text: TextOrder, sort: Sort, a: Keyed, b: Keyed, c: Keyed)
    requires TotalPreorder(text)
    ensures Compare(text, sort, a, b) < 0 <==> Compare(text, sort, b, a) > 0
    ensures Compare(text, sort, a, b) == 0 ==> a.index == b.index
    ensures Compare(text, sort, a, b) < 0 && Compare(text, sort, b, c) < 0 ==> Compare(text, sort, a, c) < 0
  {
    CompareIsLex(text, sort, a, b);
    CompareIsLex(text, sort, b, a);
    CompareIsLex(text, sort, b, c);
    CompareIsLex(text, sort, a, c);
    FieldChains(text, sort, a.entry, b.entry, c.entry);
    TextChains(text, a.entry.name, b.entry.name, c.entry.name);
    hide TotalPreorder, Compare, Field;
    var names := (text(a.entry.name, b.entry.name), text(b.entry.name, c.entry.name), text(a.entry.name, c.entry.name));
    LexChains(names.0, names.1, names.2, a.index - b.index, b.index - c.index, a.index - c.index);
  }

  // --- Sorting ---

  ghost predicate Ordered(text: TextOrder, sort: Sort, s: seq<Keyed>) {
    forall i, j | 0 <= i < j < |s| :: Compare(text, sort, s[i], s[j]) < 0
  }

  ghost predicate DistinctPlaces(s: seq<Keyed>) {
    forall i, j | 0 <= i < j < |s| :: s[i].index != s[j].index
  }

  function Insert(text: TextOrder, sort: Sort, x: Keyed, s: seq<Keyed>): (r: seq<Keyed>) {
    if s == [] then [x]
    else
      var n := |s| - 1;
      if Compare(text, sort, s[n], x) < 0 then s + [x]
      else Insert(text, sort, x, s[..n]) + [s[n]]
  }

  function Sorted(text: TextOrder, sort: Sort, s: seq<Keyed>): seq<Keyed> {
    if s == [] then []
    else Insert(text, sort, s[|s| - 1], Sorted(text, sort, s[..|s| - 1]))
  }

  function Indexed(entries: seq<Entry>): seq<Keyed> {
    seq(|entries|, i requires 0 <= i < |entries| => Keyed(entries[i], i))
  }

  function Entries(s: seq<Keyed>): seq<Entry> {
    seq(|s|, i requires 0 <= i < |s| => s[i].entry)
  }

  function SortRemoteEntries(text: TextOrder, entries: seq<Entry>, sort: Sort): seq<Entry> {
    Entries(Sorted(text, sort, Indexed(entries)))
  }

  lemma {:induction false} InsertHas(text: TextOrder, sort: Sort, x: Keyed, s: seq<Keyed>)
    ensures multiset(Insert(text, sort, x, s)) == multiset(s) + multiset{x}
  {
    hide Compare;
    if s != [] {
      var n := |s| - 1;
      assert s == s[..n] + [s[n]];
      InsertHas(text, sort, x, s[..n]);
    }
  }

  lemma OrderedSnoc(text: TextOrder, sort: Sort, s: seq<Keyed>, x: Keyed)
    requires Ordered(text, sort, s) && forall y | y in s :: Compare(text, sort, y, x) < 0
    ensures Ordered(text, sort, s + [x])
  {
    hide Compare;
  }

  lemma OrderedInsert(text: TextOrder, sort: Sort, s: seq<Keyed>, x: Keyed, last: Keyed, r: seq<Keyed>)
    requires Ordered(text, sort, s + [last]) && Ordered(text, sort, r) && Compare(text, sort, x, last) < 0
    requires multiset(r) == multiset(s) + multiset{x}
    ensures Ordered(text, sort, r + [last])
  {
    hide Compare;
    forall y | y in r ensures Compare(text, sort, y, last) < 0 {
      assert y in multiset(r);
      if y != x {
        assert y in multiset(s);
        var i :| 0 <= i < |s| && s[i] == y;
        assert (s + [last])[i] == y && (s + [last])[|s|] == last;
      }
    }
    OrderedSnoc(text, sort, r, last);
  }

  lemma {:induction false} InsertKeeps(text: TextOrder, sort: Sort, x: Keyed, s: seq<Keyed>)
    requires TotalPreorder(text) && Ordered(text, sort, s) && forall y | y in s :: y.index != x.index
    ensures Ordered(text, sort, Insert(text, sort, x, s))
  {
    hide Compare, TotalPreorder;
    if s != [] {
      var n := |s| - 1;
      if Compare(text, sort, s[n], x) < 0 {
        forall y | y in s ensures Compare(text, sort, y, x) < 0 {
          StrictTotalOrder(text, sort, y, s[n], x);
        }
        OrderedSnoc(text, sort, s, x);
      } else {
        StrictTotalOrder(text, sort, x, s[n], x);
        StrictTotalOrder(text, sort, s[n], x, x);
        InsertKeeps(text, sort, x, s[..n]);
        InsertHas(text, sort, x, s[..n]);
        assert s == s[..n] + [s[n]] && s[n] in s;
        assert Compare(text, sort, x, s[n]) < 0;
        hide Ordered;
        OrderedInsert(text, sort, s[..n], x, s[n], Insert(text, sort, x, s[..n]));
      }
    }
  }

  lemma {:induction false} SortedOk(text: TextOrder, sort: Sort, s: seq<Keyed>)
    requires TotalPreorder(text) && DistinctPlaces(s)
    ensures Ordered(text, sort, Sorted(text, sort, s)) && multiset(Sorted(text, sort, s)) == multiset(s)
  {
    if s != [] {
      var n := |s| - 1;
      SortedOk(text, sort, s[..n]);
      assert s == s[..n] + [s[n]];
      var r := Sorted(text, sort, s[..n]);
      forall y | y in r ensures y.index != s[n].index {
        assert y in multiset(r);
        assert y in s[..n];
      }
      InsertKeeps(text, sort, s[n], r);
      InsertHas(text, sort, s[n], r);
    }
  }

  lemma LastIsLast(text: TextOrder, sort: Sort, a: seq<Keyed>, b: seq<Keyed>)
    requires TotalPreorder(text) && Ordered(text, sort, a) && Ordered(text, sort, b)
    requires multiset(a) == multiset(b) && a != [] && b != []
    ensures a[|a| - 1] == b[|b| - 1]
  {
    hide TotalPreorder, Compare, Ordered;
    var x, y := a[|a| - 1], b[|b| - 1];
    InAsWell(a, b, x);
    InAsWell(b, a, y);
    BeforeTheLast(text, sort, b, x);
    BeforeTheLast(text, sort, a, y);
    StrictTotalOrder(text, sort, x, y, x);
  }

  lemma InAsWell<T>(a: seq<T>, b: seq<T>, x: T)
    requires multiset(a) == multiset(b) && x in a
    ensures x in b
  {
    assert x in multiset(b);
  }

  lemma BeforeTheLast(text: TextOrder, sort: Sort, s: seq<Keyed>, x: Keyed)
    requires Ordered(text, sort, s) && x in s
    ensures x == s[|s| - 1] || Compare(text, sort, x, s[|s| - 1]) < 0
  {
    hide Compare;
    var i :| 0 <= i < |s| && s[i] == x;
  }

  lemma OrderedFront(text: TextOrder, sort: Sort, s: seq<Keyed>)
    requires Ordered(text, sort, s) && s != []
    ensures Ordered(text, sort, s[..|s| - 1])
  {
    hide Compare;
  }

  lemma {:induction false} SameMultisetSameOrder(text: TextOrder, sort: Sort, a: seq<Keyed>, b: seq<Keyed>)
    requires TotalPreorder(text) && Ordered(text, sort, a) && Ordered(text, sort, b)
    requires multiset(a) == multiset(b)
    ensures a == b
  {
    hide TotalPreorder, Compare, Ordered;
    assert |multiset(a)| == |a| && |multiset(b)| == |b|;
    if a != [] {
      LastIsLast(text, sort, a, b);
      SameFronts(a, b);
      OrderedFront(text, sort, a);
      OrderedFront(text, sort, b);
      SameMultisetSameOrder(text, sort, a[..|a| - 1], b[..|b| - 1]);
    }
  }

  lemma SameFronts<T>(a: seq<T>, b: seq<T>)
    requires a != [] && b != [] && multiset(a) == multiset(b) && a[|a| - 1] == b[|b| - 1]
    ensures multiset(a[..|a| - 1]) == multiset(b[..|b| - 1])
    ensures a[..|a| - 1] == b[..|b| - 1] ==> a == b
  {
    MultisetSnoc(a);
    MultisetSnoc(b);
    assert multiset(a[..|a| - 1]) == multiset(a) - multiset{a[|a| - 1]};
    assert a == a[..|a| - 1] + [a[|a| - 1]] && b == b[..|b| - 1] + [b[|b| - 1]];
  }

  lemma MultisetSnoc<T>(s: seq<T>)
    requires s != []
    ensures multiset(s) == multiset(s[..|s| - 1]) + multiset{s[|s| - 1]}
  {
    assert s == s[..|s| - 1] + [s[|s| - 1]];
  }

  /** The listing shown is the one and only arrangement of the entries in which every entry
      comes before the next ones, so any correct sorting algorithm shows the same. */
  lemma OnlyOneArrangement(text: TextOrder, sort: Sort, entries: seq<Entry>, s: seq<Keyed>)
    requires TotalPreorder(text)
    ensures multiset(s) == multiset(Indexed(entries)) && Ordered(text, sort, s)
       <==> s == Sorted(text, sort, Indexed(entries))
  {
    SortedOk(text, sort, Indexed(entries));
    if multiset(s) == multiset(Indexed(entries)) && Ordered(text, sort, s) {
      SameMultisetSameOrder(text, sort, s, Sorted(text, sort, Indexed(entries)));
    }
  }

  // --- What the order means ---

  function Value(key: Key, e: Entry): Option<int> {
    match key
    case Size => e.size
    case Modified => e.modifiedTime
    case _ => None
  }

  predicate Numeric(key: Key) {
    key.Size? || key.Modified?
  }

  predicate TextBefore(text: TextOrder, key: Key, left: Entry, right: Entry) {
    (key.Name? && text(left.name, right.name) < 0) || (key.Kind? && text(left.kind, right.kind) < 0)
  }

  /** Both keys are there and `left`'s is the smaller. */
  predicate KeyBelow(text: TextOrder, key: Key, left: Entry, right: Entry) {
    if Numeric(key) then Value(key, left).Some? && Value(key, right).Some? && Value(key, left).value < Value(key, right).value
    else TextBefore(text, key, left, right)
  }

  predicate OnlyRightMissing(key: Key, left: Entry, right: Entry) {
    Numeric(key) && Value(key, left).Some? && Value(key, right).None?
  }

  predicate SameKey(text: TextOrder, key: Key, left: Entry, right: Entry) {
    && !KeyBelow(text, key, left, right) && !KeyBelow(text, key, right, left)
    && !OnlyRightMissing(key, left, right) && !OnlyRightMissing(key, right, left)
  }

  /** `l`, which was at place `i`, comes before `r`, which was at `j`: directories first; then
      entries that have the key, in the chosen direction; then those that do not; ties by name,
      and last by place. */
  predicate ComesBefore(text: TextOrder, sort: Sort, l: Entry, i: nat, r: Entry, j: nat) {
    || (l.kind == "directory" && r.kind != "directory")
    || ((l.kind == "directory" <==> r.kind == "directory") &&
        (|| (if sort.ascending then KeyBelow(text, sort.key, l, r) else KeyBelow(text, sort.key, r, l))
         || OnlyRightMissing(sort.key, l, r)
         || (SameKey(text, sort.key, l, r) && (text(l.name, r.name) < 0 || (text(l.name, r.name) == 0 && i < j)))))
  }

  lemma OrderMeans(text: TextOrder, sort: Sort, left: Keyed, right: Keyed)
    requires TotalPreorder(text)
    ensures Compare(text, sort, left, right) < 0 <==> ComesBefore(text, sort, left.entry, left.index, right.entry, right.index)
  {
    TextChains(text, left.entry.name, right.entry.name, left.entry.name);
    TextChains(text, left.entry.kind, right.entry.kind, left.entry.kind);
    hide TotalPreorder;
  }

  /** Changing the direction turns round exactly the pairs inside a group whose keys are both
      there and differ. */
  lemma FlippingTurnsRound(text: TextOrder, key: Key, left: Keyed, right: Keyed)
    requires TotalPreorder(text) && left.index != right.index
    ensures (Compare(text, Sort(key, true), left, right) < 0) != (Compare(text, Sort(key, false), left, right) < 0)
      <==> IsDirectory(left.entry) == IsDirectory(right.entry)
           && (KeyBelow(text, key, left.entry, right.entry) || KeyBelow(text, key, right.entry, left.entry))
  {
    OrderMeans(text, Sort(key, true), left, right);
    OrderMeans(text, Sort(key, false), left, right);
    TextChains(text, left.entry.name, right.entry.name, left.entry.name);
    TextChains(text, left.entry.kind, right.entry.kind, left.entry.kind);
    hide TotalPreorder, Compare;
  }

  /** Sorting what is sorted already changes nothing. */
  lemma SortingTwice(text: TextOrder, sort: Sort, entries: seq<Entry>)
    requires TotalPreorder(text)
    ensures var once := SortRemoteEntries(text, entries, sort); SortRemoteEntries(text, once, sort) == once
  {
    var s := Sorted(text, sort, Indexed(entries));
    var once := Entries(s);
    SortedOk(text, sort, Indexed(entries));
    forall i, j | 0 <= i < j < |once| ensures Compare(text, sort, Indexed(once)[i], Indexed(once)[j]) < 0 {
      CompareIsLex(text, sort, s[i], s[j]);
      CompareIsLex(text, sort, Indexed(once)[i], Indexed(once)[j]);
    }
    OnlyOneArrangement(text, sort, once, Indexed(once));
    assert Entries(Indexed(once)) == once;
  }

  function RemoveAt<T>(s: seq<T>, p: nat): (r: seq<T>)
    requires p < |s|
    ensures |r| == |s| - 1
  {
    s[..p] + s[p + 1..]
  }

  lemma MultisetWithout<T>(s: seq<T>, p: nat)
    requires p < |s|
    ensures multiset(s) == multiset(RemoveAt(s, p)) + multiset{s[p]}
    ensures multiset(RemoveAt(s, p)) == multiset(s) - multiset{s[p]}
  {
    assert s == s[..p] + ([s[p]] + s[p + 1..]);
  }

  lemma EntriesWithout(s: seq<Keyed>, p: nat)
    requires p < |s|
    ensures multiset(Entries(s)) == multiset(Entries(RemoveAt(s, p))) + multiset{s[p].entry}
  {
    assert RemoveAt(Entries(s), p) == Entries(RemoveAt(s, p));
    hide RemoveAt;
    MultisetWithout(Entries(s), p);
  }

  lemma {:induction false} EntriesKeepMultiset(a: seq<Keyed>, b: seq<Keyed>)
    requires multiset(a) == multiset(b)
    ensures multiset(Entries(a)) == multiset(Entries(b))
    decreases |a|
  {
    hide Entries, RemoveAt;
    assert |multiset(a)| == |a| && |multiset(b)| == |b|;
    if a == [] {
      assert a == b;
    } else {
      InAsWell(a, b, a[0]);
      var p :| 0 <= p < |b| && b[p] == a[0];
      MultisetWithout(a, 0);
      MultisetWithout(b, p);
      EntriesKeepMultiset(RemoveAt(a, 0), RemoveAt(b, p));
      EntriesWithout(a, 0);
      EntriesWithout(b, p);
    }
  }

  ghost predicate InOrder(text: TextOrder, sort: Sort, l: Entry, r: Entry) {
    && !OnlyRightMissing(sort.key, r, l)
    && if sort.ascending then !KeyBelow(text, sort.key, r, l) else !KeyBelow(text, sort.key, l, r)
  }

  lemma BeforeInOrder(text: TextOrder, sort: Sort, left: Keyed, right: Keyed)
    requires TotalPreorder(text) && Compare(text, sort, left, right) < 0
    ensures IsDirectory(right.entry) ==> IsDirectory(left.entry)
    ensures IsDirectory(left.entry) == IsDirectory(right.entry) ==> InOrder(text, sort, left.entry, right.entry)
  {
    OrderMeans(text, sort, left, right);
    hide Compare;
    TextChains(text, left.entry.name, right.entry.name, left.entry.name);
    TextChains(text, left.entry.kind, right.entry.kind, left.entry.kind);
    hide TotalPreorder;
  }

  /** The listing is a permutation of the entries with the directories in front and, among
      the directories and among the rest, those without the key behind and the others never
      against the chosen direction. */
  lemma ListingShape(text: TextOrder, sort: Sort, entries: seq<Entry>)
    requires TotalPreorder(text)
    ensures var r := SortRemoteEntries(text, entries, sort);
      && multiset(r) == multiset(entries)
      && (forall i, j | 0 <= i < j < |r| && IsDirectory(r[j]) :: IsDirectory(r[i]))
      && (forall i, j | 0 <= i < j < |r| && IsDirectory(r[i]) == IsDirectory(r[j]) ::
            && !OnlyRightMissing(sort.key, r[j], r[i])
            && if sort.ascending then !KeyBelow(text, sort.key, r[j], r[i]) else !KeyBelow(text, sort.key, r[i], r[j]))
  {
    var s := Sorted(text, sort, Indexed(entries));
    SortedOk(text, sort, Indexed(entries));
    EntriesKeepMultiset(s, Indexed(entries));
    assert Entries(Indexed(entries)) == entries;
    hide Compare, TotalPreorder, Sorted, Indexed, KeyBelow, OnlyRightMissing, IsDirectory;
    forall i, j | 0 <= i < j < |s|
      ensures IsDirectory(s[j].entry) ==> IsDirectory(s[i].entry)
      ensures IsDirectory(s[i].entry) == IsDirectory(s[j].entry) ==> InOrder(text, sort, s[i].entry, s[j].entry)
    {
      assert Compare(text, sort, s[i], s[j]) < 0;
      BeforeInOrder(text, sort, s[i], s[j]);
    }
  }

  // --- The listing, by places ---

  ghost predicate DistinctBelow(places: seq<nat>, n: nat) {
    (forall i | 0 <= i < |places| :: places[i] < n) && forall i, j | 0 <= i < j < |places| :: places[i] != places[j]
  }

  /** `r` shows the entries from these places, each once, and each before the next ones. */
  ghost predicate ArrangedBy(text: TextOrder, sort: Sort, entries: seq<Entry>, places: seq<nat>, r: seq<Entry>) {
    && |places| == |r| == |entries| && DistinctBelow(places, |entries|)
    && (forall i | 0 <= i < |r| :: r[i] == entries[places[i]])
    && forall i, j | 0 <= i < j < |r| :: ComesBefore(text, sort, r[i], places[i], r[j], places[j])
  }

  function Places(s: seq<Keyed>): seq<nat> {
    seq(|s|, i requires 0 <= i < |s| => s[i].index)
  }

  /** The keyed entries from these places. */
  function Picked(entries: seq<Entry>, places: seq<nat>): seq<Keyed>
    requires forall i | 0 <= i < |places| :: places[i] < |entries|
  {
    seq(|places|, i requires 0 <= i < |places| => Keyed(entries[places[i]], places[i]))
  }

  function Elements(places: seq<nat>): set<nat> {
    set p | p in places
  }

  function Upto(n: nat): set<nat> {
    if n == 0 then {} else Upto(n - 1) + {n - 1}
  }

  lemma {:induction false} UptoHas(n: nat)
    ensures |Upto(n)| == n && forall p: nat :: p in Upto(n) <==> p < n
  {
    if n > 0 {
      UptoHas(n - 1);
    }
  }

  lemma {:induction false} DistinctCount(places: seq<nat>, n: nat)
    requires DistinctBelow(places, n)
    ensures |Elements(places)| == |places| && multiset(Elements(places)) == multiset(places)
  {
    if places == [] {
      assert Elements(places) == {};
    } else {
      var m := |places| - 1;
      var front, last := places[..m], places[m];
      assert places == front + [last] && last !in front;
      DistinctCount(front, n);
      assert Elements(places) == Elements(front) + {last} && last !in Elements(front);
      hide Elements, DistinctBelow;
      AddOne(Elements(front), last);
    }
  }

  lemma AddOne(s: set<nat>, x: nat)
    requires x !in s
    ensures multiset(s + {x}) == multiset(s) + multiset{x} && |s + {x}| == |s| + 1
  {
  }

  lemma Inside(a: set<nat>, b: set<nat>)
    requires a <= b && |a| == |b|
    ensures a == b
  {
    assert b == a + (b - a);
  }

  /** All places below `n`, each once, are the same places in any order. */
  lemma SamePlaces(a: seq<nat>, b: seq<nat>, n: nat)
    requires DistinctBelow(a, n) && DistinctBelow(b, n) && |a| == |b| == n
    ensures multiset(a) == multiset(b)
  {
    DistinctCount(a, n);
    DistinctCount(b, n);
    UptoHas(n);
    assert Elements(a) <= Upto(n) && Elements(b) <= Upto(n);
    Inside(Elements(a), Upto(n));
    Inside(Elements(b), Upto(n));
  }

  lemma {:induction false} PickedSame(entries: seq<Entry>, a: seq<nat>, b: seq<nat>)
    requires forall i | 0 <= i < |a| :: a[i] < |entries|
    requires forall i | 0 <= i < |b| :: b[i] < |entries|
    requires multiset(a) == multiset(b)
    ensures multiset(Picked(entries, a)) == multiset(Picked(entries, b))
    decreases |a|
  {
    assert |multiset(a)| == |a| && |multiset(b)| == |b|;
    if a == [] {
      assert a == b;
    } else {
      InAsWell(a, b, a[0]);
      var q :| 0 <= q < |b| && b[q] == a[0];
      MultisetWithout(a, 0);
      MultisetWithout(b, q);
      PickedSame(entries, RemoveAt(a, 0), RemoveAt(b, q));
      PickedWithout(entries, a, 0);
      PickedWithout(entries, b, q);
      hide RemoveAt, Picked;
    }
  }

  lemma PickedWithout(entries: seq<Entry>, places: seq<nat>, p: nat)
    requires p < |places| && forall i | 0 <= i < |places| :: places[i] < |entries|
    ensures forall i | 0 <= i < |RemoveAt(places, p)| :: RemoveAt(places, p)[i] < |entries|
    ensures multiset(Picked(entries, places)) == multiset(Picked(entries, RemoveAt(places, p))) + multiset{Keyed(entries[places[p]], places[p])}
  {
    assert RemoveAt(Picked(entries, places), p) == Picked(entries, RemoveAt(places, p));
    MultisetWithout(Picked(entries, places), p);
    hide RemoveAt;
  }

  lemma IndexedIsPicked(entries: seq<Entry>)
    ensures var all := seq(|entries|, i => i);
      (forall i | 0 <= i < |all| :: all[i] < |entries|) && DistinctBelow(all, |entries|) && Indexed(entries) == Picked(entries, all)
  {
  }

  lemma ArrangedIsOrdered(text: TextOrder, sort: Sort, entries: seq<Entry>, places: seq<nat>, r: seq<Entry>)
    requires TotalPreorder(text) && ArrangedBy(text, sort, entries, places, r)
    ensures var s := Picked(entries, places);
      multiset(s) == multiset(Indexed(entries)) && Ordered(text, sort, s) && Entries(s) == r && Places(s) == places
  {
    var s, all: seq<nat> := Picked(entries, places), seq(|entries|, i => i);
    IndexedIsPicked(entries);
    SamePlaces(places, all, |entries|);
    PickedSame(entries, places, all);
    hide Compare, ComesBefore, TotalPreorder;
    forall i, j | 0 <= i < j < |s| ensures Compare(text, sort, s[i], s[j]) < 0 {
      OrderMeans(text, sort, s[i], s[j]);
    }
  }

  /** The listing shows every entry once, each before the next ones in the order chosen; and no
      other arrangement of the entries does. */
  lemma ListingIsArranged(text: TextOrder, sort: Sort, entries: seq<Entry>)
    requires TotalPreorder(text)
    ensures exists places :: ArrangedBy(text, sort, entries, places, SortRemoteEntries(text, entries, sort))
    ensures forall places, r | ArrangedBy(text, sort, entries, places, r) :: r == SortRemoteEntries(text, entries, sort)
  {
    var s := Sorted(text, sort, Indexed(entries));
    SortedOk(text, sort, Indexed(entries));
    SortedIsArranged(text, sort, entries, s);
    hide ArrangedBy, Compare, Indexed, Ordered, Sorted, TotalPreorder, Picked;
    assert SortRemoteEntries(text, entries, sort) == Entries(s);
    assert ArrangedBy(text, sort, entries, Places(s), SortRemoteEntries(text, entries, sort));
    forall places, r | ArrangedBy(text, sort, entries, places, r) ensures r == Entries(s) {
      PlacesFit(text, sort, entries, places, r);
      ArrangedIsOrdered(text, sort, entries, places, r);
      OnlyOneArrangement(text, sort, entries, Picked(entries, places));
    }
  }

  lemma PlacesFit(text: TextOrder, sort: Sort, entries: seq<Entry>, places: seq<nat>, r: seq<Entry>)
    requires ArrangedBy(text, sort, entries, places, r)
    ensures forall i | 0 <= i < |places| :: places[i] < |entries|
  {
  }

  lemma NotBoth(text: TextOrder, sort: Sort, x: Keyed, y: Keyed)
    requires TotalPreorder(text) && Compare(text, sort, x, y) < 0
    ensures x != y
  {
    StrictTotalOrder(text, sort, x, y, x);
    hide TotalPreorder, Compare;
  }

  lemma SortedIsArranged(text: TextOrder, sort: Sort, entries: seq<Entry>, s: seq<Keyed>)
    requires TotalPreorder(text) && multiset(s) == multiset(Indexed(entries)) && Ordered(text, sort, s)
    ensures ArrangedBy(text, sort, entries, Places(s), Entries(s))
  {
    var all := Indexed(entries);
    assert |multiset(s)| == |s| && |multiset(all)| == |all|;
    hide Compare, TotalPreorder, ComesBefore;
    forall i | 0 <= i < |s| ensures s[i].index < |entries| && s[i].entry == entries[s[i].index] {
      InAsWell(s, all, s[i]);
    }
    forall i, j | 0 <= i < j < |s|
      ensures s[i].index != s[j].index
      ensures ComesBefore(text, sort, s[i].entry, s[i].index, s[j].entry, s[j].index)
    {
      OrderMeans(text, sort, s[i], s[j]);
      NotBoth(text, sort, s[i], s[j]);
    }
  }
}
