/** The orderings Python uses when it sorts evidence: strings by code point, tuples of
    strings and numbers field by field.  Evidence tuples are kept "sorted(set(...))";
    the point of this module is that such a tuple is determined by its elements. */
module Ordering {
  import opened Wrappers

  /** One component of a sort key. */
  datatype Field = Num(n: int) | Text(s: string)

  type Key = seq<Field>

  predicate TextLt(a: string, b: string) {
    if |b| == 0 then false
    else if |a| == 0 then true
    else a[0] < b[0] || (a[0] == b[0] && TextLt(a[1..], b[1..]))
  }

  predicate FieldLt(a: Field, b: Field) {
    match a
    case Num(x) => b.Text? || x < b.n
    case Text(x) => b.Text? && TextLt(x, b.s)
  }

  predicate KeyLt(a: Key, b: Key) {
    if |b| == 0 then false
    else if |a| == 0 then true
    else FieldLt(a[0], b[0]) || (a[0] == b[0] && KeyLt(a[1..], b[1..]))
  }

  lemma {:induction false} TextOrder(a: string, b: string)
    ensures !TextLt(a, a)
    ensures !(TextLt(a, b) && TextLt(b, a))
    ensures a == b || TextLt(a, b) || TextLt(b, a)
    decreases |a| + |b|
  {
    if |a| > 0 {
      TextOrder(a[1..], if |b| > 0 then b[1..] else b);
      if |b| > 0 && a[0] == b[0] && a[1..] == b[1..] {
        assert a == [a[0]] + a[1..] && b == [b[0]] + b[1..];
      }
    }
  }

  lemma {:induction false} TextTransitive(a: string, b: string, c: string)
    requires TextLt(a, b) && TextLt(b, c)
    ensures TextLt(a, c)
  {
    if |a| > 0 && a[0] == b[0] && b[0] == c[0] {
      TextTransitive(a[1..], b[1..], c[1..]);
    }
  }

  lemma FieldOrder(a: Field, b: Field)
    ensures !FieldLt(a, a)
    ensures !(FieldLt(a, b) && FieldLt(b, a))
    ensures a == b || FieldLt(a, b) || FieldLt(b, a)
  {
    if a.Text? { TextOrder(a.s, if b.Text? then b.s else a.s); }
  }

  lemma FieldTransitive(a: Field, b: Field, c: Field)
    requires FieldLt(a, b) && FieldLt(b, c)
    ensures FieldLt(a, c)
  {
    if a.Text? { TextTransitive(a.s, b.s, c.s); }
  }

  /** Keys are strictly and totally ordered. */
  lemma {:induction false} KeyOrder(a: Key, b: Key)
    ensures !KeyLt(a, a)
    ensures !(KeyLt(a, b) && KeyLt(b, a))
    ensures a == b || KeyLt(a, b) || KeyLt(b, a)
    decreases |a| + |b|
  {
    if |a| > 0 {
      FieldOrder(a[0], if |b| > 0 then b[0] else a[0]);
      KeyOrder(a[1..], if |b| > 0 then b[1..] else b);
      if |b| > 0 && a[0] == b[0] && a[1..] == b[1..] {
        assert a == [a[0]] + a[1..] && b == [b[0]] + b[1..];
      }
    }
  }

  lemma {:induction false} KeyTransitive(a: Key, b: Key, c: Key)
    requires KeyLt(a, b) && KeyLt(b, c)
    ensures KeyLt(a, c)
  {
    if |a| > 0 {
      if FieldLt(a[0], b[0]) && FieldLt(b[0], c[0]) {
        FieldTransitive(a[0], b[0], c[0]);
      } else if a[0] == b[0] && b[0] == c[0] {
        KeyTransitive(a[1..], b[1..], c[1..]);
      }
    }
  }

  /** The key of a plain string. */
  function TextKey(s: string): Key { [Text(s)] }

  lemma TextKeysDiffer()
    ensures forall x: string, y: string :: TextKey(x) == TextKey(y) ==> x == y
  {
    forall x: string, y: string | TextKey(x) == TextKey(y) ensures x == y { assert TextKey(x)[0] == TextKey(y)[0]; }
  }

  lemma TextKeyLt(a: string, b: string)
    ensures KeyLt(TextKey(a), TextKey(b)) <==> TextLt(a, b)
  {
    hide TextLt;
    assert TextKey(a)[1..] == [] && TextKey(b)[1..] == [];
  }

  /** "Deduplicated and sorted": each element's key is below every later one's. */
  predicate StrictlySorted<T>(xs: seq<T>, key: T -> Key) {
    forall i, j | 0 <= i < j < |xs| :: KeyLt(key(xs[i]), key(xs[j]))
  }

  function Insert<T(==)>(x: T, xs: seq<T>, key: T -> Key): seq<T> {
    if xs == [] then [x]
    else if x == xs[0] then xs
    else if KeyLt(key(x), key(xs[0])) then [x] + xs
    else [xs[0]] + Insert(x, xs[1..], key)
  }

  /** sorted(set(xs), key=key). */
  function SortedUnique<T(==)>(xs: seq<T>, key: T -> Key): seq<T> {
    if xs == [] then [] else Insert(xs[0], SortedUnique(xs[1..], key), key)
  }

  lemma {:induction false} InsertKeeps<T(!new)>(x: T, xs: seq<T>, key: T -> Key)
    requires StrictlySorted(xs, key)
    requires forall y | y in xs :: key(x) == key(y) ==> x == y
    ensures StrictlySorted(Insert(x, xs, key), key)
    ensures forall y :: y in Insert(x, xs, key) <==> y == x || y in xs
  {
    if xs != [] && x != xs[0] {
      KeyOrder(key(x), key(xs[0]));
      if KeyLt(key(x), key(xs[0])) {
        forall y | y in xs ensures KeyLt(key(x), key(y)) {
          var i :| 0 <= i < |xs| && xs[i] == y;
          if i > 0 { KeyTransitive(key(x), key(xs[0]), key(y)); }
        }
      } else {
        var rest := Insert(x, xs[1..], key);
        InsertKeeps(x, xs[1..], key);
        assert forall y | y in xs :: y == xs[0] || y in xs[1..];
        forall y | y in rest ensures KeyLt(key(xs[0]), key(y)) {
          if y != x {
            assert y in xs[1..];
            var i :| 0 <= i < |xs[1..]| && xs[1..][i] == y;
            assert xs[i + 1] == y;
          } else {
            KeyOrder(key(xs[0]), key(x));
          }
        }
      }
    }
  }

  /** Sorting keeps exactly the elements and puts them in strict order. */
  lemma {:induction false} SortedUniqueKeeps<T(!new)>(xs: seq<T>, key: T -> Key)
    requires forall x, y | x in xs && y in xs :: key(x) == key(y) ==> x == y
    ensures StrictlySorted(SortedUnique(xs, key), key)
    ensures forall x :: x in SortedUnique(xs, key) <==> x in xs
  {
    if xs != [] {
      assert forall y | y in xs :: y == xs[0] || y in xs[1..];
      SortedUniqueKeeps(xs[1..], key);
      InsertKeeps(xs[0], SortedUnique(xs[1..], key), key);
    }
  }

  lemma StrictlySortedDistinct<T>(xs: seq<T>, key: T -> Key)
    requires StrictlySorted(xs, key)
    ensures forall i, j | 0 <= i < j < |xs| :: xs[i] != xs[j]
    ensures forall i, j | 0 <= i < |xs| && 0 <= j < |xs| && key(xs[i]) == key(xs[j]) :: i == j
  {
    forall i, j | 0 <= i < |xs| && 0 <= j < |xs| && key(xs[i]) == key(xs[j]) ensures i == j {
      KeyOrder(key(xs[i]), key(xs[j]));
    }
  }

  /** A strictly sorted sequence is determined by its elements. */
  lemma {:induction false} SortedDetermined<T(!new)>(xs: seq<T>, ys: seq<T>, key: T -> Key)
    requires StrictlySorted(xs, key) && StrictlySorted(ys, key)
    requires forall x :: x in xs <==> x in ys
    ensures xs == ys
  {
    if ys != [] { assert ys[0] in xs; }
    if xs != [] {
      assert xs[0] in ys;
      var i :| 0 <= i < |ys| && ys[i] == xs[0];
      var j :| 0 <= j < |xs| && xs[j] == ys[0];
      KeyOrder(key(xs[0]), key(ys[0]));
      assert xs[0] == ys[0];
      StrictlySortedDistinct(xs, key);
      StrictlySortedDistinct(ys, key);
      forall x ensures x in xs[1..] <==> x in ys[1..] {
        if x in xs[1..] { assert x in xs && x != xs[0]; assert x in ys; }
        if x in ys[1..] { assert x in ys && x != ys[0]; assert x in xs; }
      }
      SortedDetermined(xs[1..], ys[1..], key);
      assert xs == [xs[0]] + xs[1..] && ys == [ys[0]] + ys[1..];
    }
  }

  /** Sorting any listing of a canonical tuple's elements gives the tuple back. */
  lemma SortRestores<T(!new)>(xs: seq<T>, canonical: seq<T>, key: T -> Key)
    requires StrictlySorted(canonical, key)
    requires forall x :: x in xs <==> x in canonical
    ensures SortedUnique(xs, key) == canonical
  {
    StrictlySortedDistinct(canonical, key);
    SortedUniqueKeeps(xs, key);
    SortedDetermined(SortedUnique(xs, key), canonical, key);
  }

  /** Insertion that keeps duplicates. */
  function Place<T>(x: T, xs: seq<T>, key: T -> Key): seq<T> {
    if xs == [] then [x]
    else if !KeyLt(key(xs[0]), key(x)) then [x] + xs
    else [xs[0]] + Place(x, xs[1..], key)
  }

  /** sorted(xs, key=key): duplicates stay. */
  function Sorted<T>(xs: seq<T>, key: T -> Key): seq<T> {
    if xs == [] then [] else Place(xs[0], Sorted(xs[1..], key), key)
  }

  lemma {:induction false} PlaceIsInsert<T>(x: T, xs: seq<T>, key: T -> Key)
    requires forall y | y in xs :: key(x) != key(y)
    ensures Place(x, xs, key) == Insert(x, xs, key)
  {
    if xs != [] {
      KeyOrder(key(x), key(xs[0]));
      if !KeyLt(key(x), key(xs[0])) { PlaceIsInsert(x, xs[1..], key); }
    }
  }

  /** Without duplicates the two ways to sort agree. */
  lemma {:induction false} SortedIsUnique<T(!new)>(xs: seq<T>, key: T -> Key)
    requires NoDuplicates(xs)
    requires forall x, y | x in xs && y in xs :: key(x) == key(y) ==> x == y
    ensures Sorted(xs, key) == SortedUnique(xs, key)
  {
    if xs != [] {
      assert xs[0] !in xs[1..];
      SortedIsUnique(xs[1..], key);
      SortedUniqueKeeps(xs[1..], key);
      PlaceIsInsert(xs[0], SortedUnique(xs[1..], key), key);
    }
  }

  /** Sorting a duplicate-free listing of a canonical tuple gives the tuple back. */
  lemma SortedRestores<T(!new)>(xs: seq<T>, canonical: seq<T>, key: T -> Key)
    requires StrictlySorted(canonical, key) && NoDuplicates(xs)
    requires forall x :: x in xs <==> x in canonical
    ensures Sorted(xs, key) == canonical
  {
    StrictlySortedDistinct(canonical, key);
    SortedIsUnique(xs, key);
    SortRestores(xs, canonical, key);
  }

  /** Where x stands in xs; the last place, as a dictionary built in order would say. */
  function LastIndex<T(==)>(xs: seq<T>, x: T): (i: nat)
    requires x in xs
    ensures i < |xs| && xs[i] == x && x !in xs[i + 1..]
  {
    if xs[|xs| - 1] == x then |xs| - 1 else LastIndex(xs[..|xs| - 1], x)
  }

  /** The elements of one name, in order. */
  function Group<T>(xs: seq<T>, name: T -> string, wanted: string): seq<T> {
    if xs == [] then []
    else
      var before, last := Group(xs[..|xs| - 1], name, wanted), xs[|xs| - 1];
      if name(last) == wanted then before + [last] else before
  }

  lemma {:induction false} GroupMembers<T(!new)>(xs: seq<T>, name: T -> string, wanted: string)
    ensures forall x :: x in Group(xs, name, wanted) <==> x in xs && name(x) == wanted
  {
    if xs != [] {
      GroupMembers(xs[..|xs| - 1], name, wanted);
      assert xs == xs[..|xs| - 1] + [xs[|xs| - 1]];
    }
  }

  lemma {:induction false} GroupSorted<T(!new)>(xs: seq<T>, name: T -> string, wanted: string, key: T -> Key)
    requires StrictlySorted(xs, key)
    ensures StrictlySorted(Group(xs, name, wanted), key)
  {
    if xs != [] {
      var init := xs[..|xs| - 1];
      GroupSorted(init, name, wanted, key);
      GroupMembers(init, name, wanted);
      var before := Group(init, name, wanted);
      forall k | 0 <= k < |before| ensures KeyLt(key(before[k]), key(xs[|xs| - 1])) {
        assert before[k] in before && before[k] in init;
        var i :| 0 <= i < |init| && init[i] == before[k];
        assert xs[i] == before[k];
      }
    }
  }

  /** "xs == tuple(sorted(set(xs)))" says that xs is strictly sorted. */
  lemma SortedFixedPoint<T(!new)>(xs: seq<T>, key: T -> Key)
    requires forall x, y | x in xs && y in xs :: key(x) == key(y) ==> x == y
    ensures SortedUnique(xs, key) == xs <==> StrictlySorted(xs, key)
  {
    SortedUniqueKeeps(xs, key);
    if StrictlySorted(xs, key) { SortRestores(xs, xs, key); }
  }

  /** In order, equal keys allowed. */
  ghost predicate InOrder<T>(xs: seq<T>, key: T -> Key) {
    forall i, j | 0 <= i < j < |xs| :: !KeyLt(key(xs[j]), key(xs[i]))
  }

  lemma {:induction false} PlaceMembers<T(!new)>(x: T, xs: seq<T>, key: T -> Key)
    ensures forall y :: y in Place(x, xs, key) <==> y == x || y in xs
    ensures x !in xs && NoDuplicates(xs) ==> NoDuplicates(Place(x, xs, key))
  {
    if xs != [] && KeyLt(key(xs[0]), key(x)) {
      PlaceMembers(x, xs[1..], key);
      assert forall y | y in xs :: y == xs[0] || y in xs[1..];
      if x !in xs && NoDuplicates(xs) {
        assert xs[0] !in xs[1..] && NoDuplicates(xs[1..]) && x !in xs[1..];
        assert xs[0] !in Place(x, xs[1..], key);
      }
    }
  }

  lemma BelowAll<T(!new)>(x: T, xs: seq<T>, key: T -> Key)
    requires InOrder(xs, key) && xs != [] && !KeyLt(key(xs[0]), key(x))
    ensures InOrder([x] + xs, key)
  {
    forall i | 0 <= i < |xs| ensures !KeyLt(key(xs[i]), key(x)) {
      KeyOrder(key(x), key(xs[0]));
      if KeyLt(key(xs[i]), key(x)) && key(x) != key(xs[0]) { KeyTransitive(key(xs[i]), key(x), key(xs[0])); }
    }
  }

  lemma AboveFirst<T(!new)>(a: T, rest: seq<T>, key: T -> Key)
    requires InOrder(rest, key) && forall y | y in rest :: !KeyLt(key(y), key(a))
    ensures InOrder([a] + rest, key)
  {
  }

  lemma {:induction false} PlaceOrder<T(!new)>(x: T, xs: seq<T>, key: T -> Key)
    requires InOrder(xs, key)
    ensures InOrder(Place(x, xs, key), key)
  {
    if xs != [] {
      if !KeyLt(key(xs[0]), key(x)) {
        BelowAll(x, xs, key);
      } else {
        var rest := Place(x, xs[1..], key);
        PlaceOrder(x, xs[1..], key);
        PlaceMembers(x, xs[1..], key);
        KeyOrder(key(x), key(xs[0]));
        forall y | y in rest ensures !KeyLt(key(y), key(xs[0])) {
          if y in xs[1..] { var i :| 0 <= i < |xs[1..]| && xs[1..][i] == y; assert xs[i + 1] == y; }
        }
        AboveFirst(xs[0], rest, key);
      }
    }
  }

  /** Sorting puts the elements in order, loses none and repeats none. */
  lemma {:induction false} SortedKeeps<T(!new)>(xs: seq<T>, key: T -> Key)
    ensures InOrder(Sorted(xs, key), key)
    ensures forall y :: y in Sorted(xs, key) <==> y in xs
    ensures NoDuplicates(xs) ==> NoDuplicates(Sorted(xs, key))
  {
    if xs != [] {
      assert forall y | y in xs :: y == xs[0] || y in xs[1..];
      SortedKeeps(xs[1..], key);
      PlaceMembers(xs[0], Sorted(xs[1..], key), key);
      PlaceOrder(xs[0], Sorted(xs[1..], key), key);
    }
  }

  /** Whatever the keys, sorting and deduplicating loses no element and adds none. */
  lemma {:induction false} SortedUniqueMembers<T(!new)>(xs: seq<T>, key: T -> Key)
    ensures forall x :: x in SortedUnique(xs, key) <==> x in xs
  {
    if xs != [] {
      assert forall y :: y in xs <==> y == xs[0] || y in xs[1..];
      SortedUniqueMembers(xs[1..], key);
      InsertMembers(xs[0], SortedUnique(xs[1..], key), key);
    }
  }

  lemma {:induction false} InsertMembers<T(!new)>(x: T, xs: seq<T>, key: T -> Key)
    ensures forall y :: y in Insert(x, xs, key) <==> y == x || y in xs
  {
    if xs != [] {
      assert forall y :: y in xs <==> y == xs[0] || y in xs[1..];
      InsertMembers(x, xs[1..], key);
    }
  }

  lemma StrictlySortedIsFixed<T(!new)>(xs: seq<T>, key: T -> Key)
    requires StrictlySorted(xs, key)
    ensures SortedUnique(xs, key) == xs
  {
    SortRestores(xs, xs, key);
  }

  lemma {:induction false} PlaceKeepsRepeats<T(!new)>(x: T, xs: seq<T>, key: T -> Key)
    requires NoDuplicates(Place(x, xs, key))
    ensures x !in xs && NoDuplicates(xs)
  {
    var placed := Place(x, xs, key);
    if xs != [] {
      assert placed[1..] == if !KeyLt(key(xs[0]), key(x)) then xs else Place(x, xs[1..], key);
      assert NoDuplicates(placed[1..]) && placed[0] !in placed[1..];
      if KeyLt(key(xs[0]), key(x)) {
        PlaceKeepsRepeats(x, xs[1..], key);
        PlaceMembers(x, xs[1..], key);
        assert xs == [xs[0]] + xs[1..];
      }
    }
  }

  /** Sorting a list keeps its repetitions. */
  lemma {:induction false} SortedKeepsRepeats<T(!new)>(xs: seq<T>, key: T -> Key)
    ensures NoDuplicates(Sorted(xs, key)) <==> NoDuplicates(xs)
  {
    SortedKeeps(xs, key);
    if xs != [] && NoDuplicates(Sorted(xs, key)) {
      var rest := Sorted(xs[1..], key);
      PlaceKeepsRepeats(xs[0], rest, key);
      SortedKeepsRepeats(xs[1..], key);
      SortedKeeps(xs[1..], key);
      assert xs == [xs[0]] + xs[1..] && xs[0] !in xs[1..];
    }
  }

  /** A sorted list equals its own sorted set exactly when nothing in it is repeated. */
  lemma SortedIsFixedIffDistinct<T(!new)>(xs: seq<T>, key: T -> Key)
    requires forall x, y | x in xs && y in xs :: key(x) == key(y) ==> x == y
    ensures SortedUnique(Sorted(xs, key), key) == Sorted(xs, key) <==> NoDuplicates(xs)
  {
    var ys := Sorted(xs, key);
    SortedKeeps(xs, key);
    SortedKeepsRepeats(xs, key);
    SortedFixedPoint(ys, key);
    if NoDuplicates(ys) {
      forall i, j | 0 <= i < j < |ys| ensures KeyLt(key(ys[i]), key(ys[j])) {
        KeyOrder(key(ys[i]), key(ys[j]));
        assert ys[i] in ys && ys[j] in ys;
      }
    }
    if StrictlySorted(ys, key) { StrictlySortedDistinct(ys, key); }
  }
}
