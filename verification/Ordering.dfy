/**
 The two orderings the program sorts by reduce to one shape: a comparison that is a
 strict total order on the elements being sorted. Under that condition the sorted
 sequence is determined by the set of its elements, whatever order they arrived in.
 */
module Ordering {

  datatype Option<+T> = None | Some(value: T)

  /** Go's `<` on strings. */
  predicate Less(a: string, b: string)
  {
    b != [] && (a == [] || a[0] < b[0] || (a[0] == b[0] && Less(a[1..], b[1..])))
  }

  /** It is the order of dictionaries: a proper prefix comes first, otherwise the first difference decides. */
  lemma {:induction false} LessExact(a: string, b: string)
    ensures Less(a, b) <==> exists k | 0 <= k <= |a| && k < |b| :: a[..k] == b[..k] && (k == |a| || a[k] < b[k])
  {
    if a != [] && b != [] && a[0] == b[0] {
      LessExact(a[1..], b[1..]);
      if Less(a, b) {
        var k :| 0 <= k <= |a[1..]| && k < |b[1..]| && a[1..][..k] == b[1..][..k]
                 && (k == |a[1..]| || a[1..][k] < b[1..][k]);
        assert a[..k + 1] == [a[0]] + a[1..][..k] && b[..k + 1] == [b[0]] + b[1..][..k];
      }
      if k :| 0 <= k <= |a| && k < |b| && a[..k] == b[..k] && (k == |a| || a[k] < b[k]) {
        assert k > 0;
        assert a[1..][..k - 1] == a[..k][1..] && b[1..][..k - 1] == b[..k][1..];
      }
    } else if b != [] {
      assert a[..0] == b[..0];
      forall k | 0 < k <= |a| && k < |b| ensures a[..k] != b[..k] { assert a[..k][0] != b[..k][0]; }
    }
  }

  lemma {:induction false} LessTotal(a: string, b: string)
    ensures !Less(a, a)
    ensures a == b || Less(a, b) || Less(b, a)
    ensures !(Less(a, b) && Less(b, a))
  {
    if a != [] { LessTotal(a[1..], if b == [] then [] else b[1..]); }
    if a != [] && b != [] && a[0] == b[0] && a[1..] == b[1..] {
      assert a == [a[0]] + a[1..] && b == [b[0]] + b[1..];
    }
  }

  lemma {:induction false} LessTransitive(a: string, b: string, c: string)
    requires Less(a, b) && Less(b, c)
    ensures Less(a, c)
  {
    if a != [] && a[0] == b[0] && b[0] == c[0] { LessTransitive(a[1..], b[1..], c[1..]); }
  }

  /** `lt` is a strict total order on the values in `elements`. */
  ghost predicate StrictTotalOn<T(!new)>(lt: (T, T) -> bool, elements: set<T>)
  {
    && (forall x, y | x in elements && y in elements :: x == y || lt(x, y) || lt(y, x))
    && (forall x, y | x in elements && y in elements :: lt(x, y) ==> !lt(y, x))
    && (forall x, y, z | x in elements && y in elements && z in elements && lt(x, y) && lt(y, z) :: lt(x, z))
  }

  lemma LessIsStrictTotal(names: set<string>)
    ensures StrictTotalOn(Less, names)
  {
    forall x, y | x in names && y in names
      ensures x == y || Less(x, y) || Less(y, x)
      ensures Less(x, y) ==> !Less(y, x)
    { LessTotal(x, y); }
    forall x, y, z | x in names && y in names && z in names && Less(x, y) && Less(y, z)
      ensures Less(x, z)
    { LessTransitive(x, y, z); }
  }

  ghost predicate Ascending<T>(lt: (T, T) -> bool, s: seq<T>)
  {
    forall i, j | 0 <= i < j < |s| :: lt(s[i], s[j])
  }

  ghost function Elements<T>(s: seq<T>): set<T> { set x | x in s }

  lemma Assoc<T>(a: seq<T>, b: seq<T>, c: seq<T>)
    ensures a + b + c == a + (b + c)
  {
  }

  lemma AscendingHead<T(!new)>(lt: (T, T) -> bool, s: seq<T>, x: T)
    requires Ascending(lt, s) && x in s
    ensures x == s[0] || (x in s[1..] && lt(s[0], x))
  {
    var i :| 0 <= i < |s| && s[i] == x;
    assert i > 0 ==> s[1..][i - 1] == x;
  }

  /** Two ascending sequences of the same elements are the same sequence. */
  lemma {:induction false} AscendingUnique<T(!new)>(lt: (T, T) -> bool, a: seq<T>, b: seq<T>)
    requires Ascending(lt, a) && Ascending(lt, b)
    requires forall x, y | x in a && y in a :: lt(x, y) ==> !lt(y, x)
    requires forall x :: x in a <==> x in b
    ensures a == b
  {
    if a == [] {
      assert forall i | 0 <= i < |b| :: b[i] in a;
    } else {
      assert a[0] in b && b[0] in a;
      AscendingHead(lt, b, a[0]);
      AscendingHead(lt, a, b[0]);
      forall x ensures x in a[1..] <==> x in b[1..] {
        assert x in a[1..] ==> x in a && lt(a[0], x);
        assert x in b[1..] ==> x in b && lt(b[0], x);
        if x in a { AscendingHead(lt, a, x); AscendingHead(lt, b, x); }
      }
      AscendingUnique(lt, a[1..], b[1..]);
      assert a == [a[0]] + a[1..] && b == [b[0]] + b[1..];
    }
  }

  function Insert<T>(lt: (T, T) -> bool, x: T, s: seq<T>): seq<T>
  {
    if s != [] && lt(s[0], x) then [s[0]] + Insert(lt, x, s[1..]) else [x] + s
  }

  lemma {:induction false} InsertElements<T>(lt: (T, T) -> bool, x: T, s: seq<T>)
    ensures forall y :: y in Insert(lt, x, s) <==> y == x || y in s
    ensures |Insert(lt, x, s)| == |s| + 1
  {
    if s != [] && lt(s[0], x) {
      assert s == [s[0]] + s[1..];
      InsertElements(lt, x, s[1..]);
    }
  }

  lemma AscendingCons<T>(lt: (T, T) -> bool, x: T, s: seq<T>)
    requires Ascending(lt, s) && forall y | y in s :: lt(x, y)
    ensures Ascending(lt, [x] + s)
  {
  }

  lemma {:induction false} InsertAscending<T(!new)>(lt: (T, T) -> bool, x: T, s: seq<T>)
    requires x !in s && Ascending(lt, s)
    requires StrictTotalOn(lt, Elements(s) + {x})
    ensures Ascending(lt, Insert(lt, x, s))
  {
    if s != [] && lt(s[0], x) {
      InsertAscending(lt, x, s[1..]);
      InsertElements(lt, x, s[1..]);
      AscendingCons(lt, s[0], Insert(lt, x, s[1..]));
    } else {
      forall y | y in s ensures lt(x, y) { AscendingHead(lt, s, y); }
      AscendingCons(lt, x, s);
    }
  }

  /** `sort.Slice` on distinct elements. */
  function Sort<T>(lt: (T, T) -> bool, s: seq<T>): seq<T>
  {
    if s == [] then [] else Insert(lt, s[0], Sort(lt, s[1..]))
  }

  ghost predicate Distinct<T>(s: seq<T>)
  {
    forall i, j | 0 <= i < j < |s| :: s[i] != s[j]
  }

  lemma {:induction false} SortAscending<T(!new)>(lt: (T, T) -> bool, s: seq<T>)
    requires Distinct(s) && StrictTotalOn(lt, Elements(s))
    ensures Ascending(lt, Sort(lt, s))
    ensures forall y :: y in Sort(lt, s) <==> y in s
    ensures |Sort(lt, s)| == |s|
  {
    if s != [] {
      assert s == [s[0]] + s[1..];
      SortAscending(lt, s[1..]);
      assert s[0] !in s[1..];
      InsertAscending(lt, s[0], Sort(lt, s[1..]));
      InsertElements(lt, s[0], Sort(lt, s[1..]));
    }
  }
}
