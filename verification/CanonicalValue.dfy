/** `canonicalValue`: JSON values with every object's keys sorted, which the receipt digests are
    taken of. */
module CanonicalValue {
  import opened StableSort

  /** JavaScript strings are sequences of 16-bit code units and are sorted as such. */
  type CodeUnit = u: nat | u < 0x10000

  type Text = seq<CodeUnit>

  /** An object is its entries in the order `Object.keys` gives them. */
  datatype Json =
    | Null
    | Bool(b: bool)
    | Number(n: real)
    | String(text: Text)
    | Array(items: seq<Json>)
    | Object(entries: seq<Entry>)

  datatype Entry = Entry(key: Text, value: Json)

  function KeyOf(e: Entry): Text {
    e.key
  }

  /** The keys of one object differ. */
  ghost predicate WellFormed(v: Json) {
    && (v.Array? ==> forall i | 0 <= i < |v.items| :: WellFormed(v.items[i]))
    && (v.Object? ==> DistinctBy(v.entries, KeyOf) && forall i | 0 <= i < |v.entries| :: WellFormed(v.entries[i].value))
  }

  // ----- The order of keys -----

  predicate TextLe(a: Text, b: Text) {
    a == [] || (b != [] && (a[0] < b[0] || (a[0] == b[0] && TextLe(a[1..], b[1..]))))
  }

  lemma {:induction false} TextLeTotal(a: Text, b: Text)
    ensures TextLe(a, b) || TextLe(b, a)
    ensures TextLe(a, b) && TextLe(b, a) ==> a == b
  {
    if a != [] && b != [] {
      TextLeTotal(a[1..], b[1..]);
      assert a == [a[0]] + a[1..] && b == [b[0]] + b[1..];
    }
  }

  lemma {:induction false} TextLeTransitive(a: Text, b: Text, c: Text)
    requires TextLe(a, b) && TextLe(b, c)
    ensures TextLe(a, c)
  {
    if a != [] && a[0] == b[0] == c[0] {
      TextLeTransitive(a[1..], b[1..], c[1..]);
    }
  }

  const byKey := (a: Entry, b: Entry) => TextLe(a.key, b.key)

  /** A key that is an array index: a canonical numeral below 2^32 - 1. */
  predicate IsIndex(key: Text) {
    && key != [] && (forall i | 0 <= i < |key| :: 48 <= key[i] <= 57)
    && (key[0] == 48 ==> |key| == 1)
    && IndexValue(key) < 0xFFFF_FFFF
  }

  function IndexValue(key: Text): int {
    if key == [] then 0 else 10 * IndexValue(key[..|key| - 1]) + key[|key| - 1] - 48
  }

  const byIndex := (a: Entry, b: Entry) => IndexValue(a.key) <= IndexValue(b.key)

  const indexed := (e: Entry) => IsIndex(e.key)

  const named := (e: Entry) => !IsIndex(e.key)

  /** `Object.fromEntries`: array indices come first, in numeric order, then the other keys in
      the order they were added. */
  function FromEntries(entries: seq<Entry>): seq<Entry> {
    Sort(Filter(entries, indexed), byIndex) + Filter(entries, named)
  }

  // ----- canonicalValue -----

  function Canonical(v: Json): Json {
    match v
    case Array(items) => Array(seq(|items|, i requires 0 <= i < |items| => Canonical(items[i])))
    case Object(entries) => Object(FromEntries(Sort(CanonicalEntries(entries), byKey)))
    case _ => v
  }

  function CanonicalEntries(entries: seq<Entry>): (r: seq<Entry>)
    ensures |r| == |entries|
    ensures forall i | 0 <= i < |r| :: r[i] == Entry(entries[i].key, Canonical(entries[i].value))
  {
    seq(|entries|, i requires 0 <= i < |entries| => Entry(entries[i].key, Canonical(entries[i].value)))
  }

  /** The same value but for the order of keys, at any depth. */
  ghost predicate Same(v: Json, w: Json)
    decreases v
  {
    if v.Array? then
      w.Array? && |v.items| == |w.items| && forall i | 0 <= i < |v.items| :: Same(v.items[i], w.items[i])
    else if v.Object? then
      && w.Object? && |v.entries| == |w.entries|
      && forall i | 0 <= i < |v.entries| ::
           exists j :: 0 <= j < |w.entries| && v.entries[i].key == w.entries[j].key && Same(v.entries[i].value, w.entries[j].value)
    else v == w
  }

  // ----- Permutations -----

  lemma {:induction false} FilterSplits<T>(xs: seq<T>, p: T -> bool, q: T -> bool)
    requires forall x | x in xs :: p(x) != q(x)
    ensures multiset(Filter(xs, p)) + multiset(Filter(xs, q)) == multiset(xs)
  {
    if xs != [] {
      assert xs == [xs[0]] + xs[1..];
      FilterSplits(xs[1..], p, q);
    }
  }

  lemma FromEntriesKeeps(entries: seq<Entry>)
    ensures multiset(FromEntries(entries)) == multiset(entries)
  {
    FilterSplits(entries, indexed, named);
    assert TotalPreorder(byIndex);
    SortSorted(Filter(entries, indexed), byIndex);
  }

  lemma ByKeyOrders()
    ensures TotalPreorder(byKey)
  {
    forall a: Entry, b: Entry ensures byKey(a, b) || byKey(b, a) {
      TextLeTotal(a.key, b.key);
    }
    forall a: Entry, b: Entry, c: Entry | byKey(a, b) && byKey(b, c) ensures byKey(a, c) {
      TextLeTransitive(a.key, b.key, c.key);
    }
  }

  lemma KeysDecide(a: seq<Entry>, s: seq<Entry>, x: Entry, y: Entry)
    requires multiset(a) == multiset(s) && DistinctBy(a, KeyOf) && x in s && y in s && x.key == y.key
    ensures x == y
  {
    assert x in multiset(s) && y in multiset(s);
    assert x in multiset(a) && y in multiset(a);
    var i :| 0 <= i < |a| && a[i] == x;
    var j :| 0 <= j < |a| && a[j] == y;
    assert KeyOf(a[i]) == KeyOf(a[j]);
  }

  /** Arrangements of the same entries with distinct keys sort to one arrangement. */
  lemma SortedOneWay(a: seq<Entry>, b: seq<Entry>)
    requires multiset(a) == multiset(b) && DistinctBy(a, KeyOf)
    ensures Sort(a, byKey) == Sort(b, byKey)
  {
    ByKeyOrders();
    SortSorted(a, byKey);
    SortSorted(b, byKey);
    var s := Sort(a, byKey);
    forall x, y | x in s && y in s && byKey(x, y) && byKey(y, x) ensures x == y {
      TextLeTotal(x.key, y.key);
      KeysDecide(a, s, x, y);
    }
    SortedUnique(s, Sort(b, byKey), byKey);
  }

  lemma Without<T>(xs: seq<T>, j: nat)
    requires j < |xs|
    ensures multiset(xs) == multiset{xs[j]} + multiset(xs[..j] + xs[j + 1..])
    ensures forall x | x in xs && x != xs[j] :: x in xs[..j] + xs[j + 1..]
  {
    assert xs == xs[..j] + [xs[j]] + xs[j + 1..];
  }

  lemma {:induction false} CoversIsPermutation(a: seq<Entry>, b: seq<Entry>)
    requires |a| == |b| && DistinctBy(a, KeyOf) && forall i | 0 <= i < |a| :: a[i] in b
    ensures multiset(a) == multiset(b)
  {
    if a != [] {
      var j :| 0 <= j < |b| && b[j] == a[0];
      Without(b, j);
      assert forall i | 0 <= i < |a[1..]| :: a[1..][i] == a[i + 1] && KeyOf(a[i + 1]) != KeyOf(a[0]);
      CoversIsPermutation(a[1..], b[..j] + b[j + 1..]);
      assert a == [a[0]] + a[1..];
    }
  }

  lemma CanonicalDistinct(entries: seq<Entry>)
    requires DistinctBy(entries, KeyOf)
    ensures DistinctBy(CanonicalEntries(entries), KeyOf)
  {
  }

  lemma {:induction false} ObjectKeeps(entries: seq<Entry>)
    ensures multiset(Canonical(Object(entries)).entries) == multiset(CanonicalEntries(entries))
    ensures |Canonical(Object(entries)).entries| == |entries|
  {
    ByKeyOrders();
    var es := CanonicalEntries(entries);
    SortSorted(es, byKey);
    FromEntriesKeeps(Sort(es, byKey));
    assert |multiset(es)| == |multiset(Canonical(Object(entries)).entries)|;
  }

  // ----- Same value, same canonical form -----

  lemma {:induction false} SameIsCanonical(v: Json, w: Json)
    requires WellFormed(v) && WellFormed(w) && Same(v, w)
    ensures Canonical(v) == Canonical(w)
    decreases v
  {
    if v.Array? {
      forall i | 0 <= i < |v.items| ensures Canonical(v.items[i]) == Canonical(w.items[i]) {
        SameIsCanonical(v.items[i], w.items[i]);
      }
    } else if v.Object? {
      var a, b := CanonicalEntries(v.entries), CanonicalEntries(w.entries);
      forall i | 0 <= i < |a| ensures a[i] in b {
        var j :| 0 <= j < |w.entries| && v.entries[i].key == w.entries[j].key && Same(v.entries[i].value, w.entries[j].value);
        SameIsCanonical(v.entries[i].value, w.entries[j].value);
        assert a[i] == b[j];
      }
      CanonicalDistinct(v.entries);
      CoversIsPermutation(a, b);
      SortedOneWay(a, b);
    }
  }

  lemma {:induction false} CanonicalIsSame(v: Json, w: Json)
    requires Canonical(v) == Canonical(w)
    ensures Same(v, w)
    decreases v
  {
    if v.Array? {
      forall i | 0 <= i < |v.items| ensures Same(v.items[i], w.items[i]) {
        assert Canonical(v).items[i] == Canonical(w).items[i];
        CanonicalIsSame(v.items[i], w.items[i]);
      }
    } else if v.Object? {
      ObjectKeeps(v.entries);
      ObjectKeeps(w.entries);
      var a, b := CanonicalEntries(v.entries), CanonicalEntries(w.entries);
      forall i | 0 <= i < |v.entries|
        ensures exists j :: 0 <= j < |w.entries| && v.entries[i].key == w.entries[j].key && Same(v.entries[i].value, w.entries[j].value)
      {
        assert a[i] in multiset(a) && a[i] in multiset(b);
        var j :| 0 <= j < |b| && b[j] == a[i];
        CanonicalIsSame(v.entries[i].value, w.entries[j].value);
      }
    }
  }

  /** Two values have one canonical form exactly when they differ in key order only. */
  lemma CanonicalIff(v: Json, w: Json)
    requires WellFormed(v) && WellFormed(w)
    ensures Canonical(v) == Canonical(w) <==> Same(v, w)
  {
    if Same(v, w) {
      SameIsCanonical(v, w);
    }
    if Canonical(v) == Canonical(w) {
      CanonicalIsSame(v, w);
    }
  }

  /** An entry of the canonical object is the canonical form of an entry of the object. */
  lemma EntrySource(entries: seq<Entry>, i: nat) returns (j: nat)
    requires i < |Canonical(Object(entries)).entries|
    ensures j < |entries| && Canonical(Object(entries)).entries[i] == Entry(entries[j].key, Canonical(entries[j].value))
  {
    var a, c := CanonicalEntries(entries), Canonical(Object(entries)).entries;
    ObjectKeeps(entries);
    assert c[i] in multiset(c) && c[i] in multiset(a);
    j :| 0 <= j < |a| && a[j] == c[i];
  }

  ghost predicate Reordered(v: Json) {
    WellFormed(Canonical(v)) && Same(Canonical(v), v)
  }

  lemma ObjectReordered(entries: seq<Entry>)
    requires DistinctBy(entries, KeyOf) && forall j | 0 <= j < |entries| :: Reordered(entries[j].value)
    ensures Reordered(Object(entries))
  {
    var c := Canonical(Object(entries)).entries;
    ObjectKeeps(entries);
    CanonicalDistinct(entries);
    SubDistinct(c, CanonicalEntries(entries), KeyOf);
    forall i | 0 <= i < |c|
      ensures WellFormed(c[i].value)
      ensures exists j :: 0 <= j < |entries| && c[i].key == entries[j].key && Same(c[i].value, entries[j].value)
    {
      var j := EntrySource(entries, i);
      assert Reordered(entries[j].value);
    }
  }

  /** The canonical form is the value itself with other key orders. */
  lemma {:induction false} CanonicalOnlyReorders(v: Json)
    requires WellFormed(v)
    ensures Reordered(v)
  {
    if v.Array? {
      forall i | 0 <= i < |v.items| ensures WellFormed(Canonical(v).items[i]) && Same(Canonical(v).items[i], v.items[i]) {
        CanonicalOnlyReorders(v.items[i]);
      }
    } else if v.Object? {
      forall j | 0 <= j < |v.entries| ensures Reordered(v.entries[j].value) {
        CanonicalOnlyReorders(v.entries[j].value);
      }
      ObjectReordered(v.entries);
    }
  }

  lemma CanonicalIdempotent(v: Json)
    requires WellFormed(v)
    ensures Canonical(Canonical(v)) == Canonical(v)
  {
    CanonicalOnlyReorders(v);
    SameIsCanonical(Canonical(v), v);
  }

  /** `digest`: for any serialiser and hash that tell values apart, two values have one digest
      exactly when they differ in key order only; for any at all, key order never matters. */
  lemma DigestIgnoresKeyOrder(v: Json, w: Json, stringify: Json -> string, sha256: string -> string)
    requires WellFormed(v) && WellFormed(w)
    ensures Same(v, w) ==> sha256(stringify(Canonical(v))) == sha256(stringify(Canonical(w)))
    ensures (forall a, b | sha256(stringify(a)) == sha256(stringify(b)) :: a == b) ==>
              (sha256(stringify(Canonical(v))) == sha256(stringify(Canonical(w))) <==> Same(v, w))
  {
    CanonicalIff(v, w);
  }

  /** Indices first, by number, then the other keys by code unit. */
  predicate Precedes(a: Entry, b: Entry) {
    if IsIndex(a.key) then IsIndex(b.key) ==> IndexValue(a.key) <= IndexValue(b.key)
    else !IsIndex(b.key) && TextLe(a.key, b.key)
  }

  lemma JoinOrders(first: seq<Entry>, rest: seq<Entry>, i: nat, j: nat)
    requires Sorted(first, byIndex) && forall k | 0 <= k < |first| :: IsIndex(first[k].key)
    requires Sorted(rest, byKey) && forall k | 0 <= k < |rest| :: !IsIndex(rest[k].key)
    requires i < j < |first + rest|
    ensures Precedes((first + rest)[i], (first + rest)[j])
  {
    if j < |first| {
      assert byIndex(first[i], first[j]);
    } else if i >= |first| {
      assert byKey(rest[i - |first|], rest[j - |first|]);
    }
  }

  lemma FromEntriesOrders(sorted: seq<Entry>, i: nat, j: nat)
    requires Sorted(sorted, byKey) && i < j < |FromEntries(sorted)|
    ensures Precedes(FromEntries(sorted)[i], FromEntries(sorted)[j])
  {
    var indices, rest := Filter(sorted, indexed), Filter(sorted, named);
    assert TotalPreorder(byIndex);
    SortSorted(indices, byIndex);
    FilterOrdered(sorted, indexed, byKey);
    FilterOrdered(sorted, named, byKey);
    var first := Sort(indices, byIndex);
    forall k | 0 <= k < |first| ensures IsIndex(first[k].key) {
      assert first[k] in multiset(first) && first[k] in multiset(indices);
      assert indexed(first[k]);
    }
    forall k | 0 <= k < |rest| ensures !IsIndex(rest[k].key) {
      assert rest[k] in rest && named(rest[k]);
    }
    JoinOrders(first, rest, i, j);
  }

  /** The order of the keys in a canonical object. */
  lemma CanonicalOrder(entries: seq<Entry>, i: nat, j: nat)
    requires i < j < |Canonical(Object(entries)).entries|
    ensures Precedes(Canonical(Object(entries)).entries[i], Canonical(Object(entries)).entries[j])
  {
    ByKeyOrders();
    SortSorted(CanonicalEntries(entries), byKey);
    FromEntriesOrders(Sort(CanonicalEntries(entries), byKey), i, j);
  }

  lemma {:induction false} FilterOrdered<T>(xs: seq<T>, p: T -> bool, le: (T, T) -> bool)
    requires Sorted(xs, le)
    ensures Sorted(Filter(xs, p), le)
    ensures forall x | x in Filter(xs, p) :: p(x) && x in xs
  {
    if xs != [] {
      FilterOrdered(xs[1..], p, le);
      assert forall x | x in xs[1..] :: le(xs[0], x);
    }
  }
}
