/**
 * Collections: building lists and insertion-ordered sets from varargs, finding duplicates,
 * testing emptiness, formatting, and filtering out nulls. A Java collection is a sequence
 * in iteration order, wrapped in Option because the reference itself may be null; a
 * varargs parameter is a possibly-null array. Every helper that loops in Java is a method
 * with the same loop, proved against a function that says what its result holds; isEmpty
 * is a function, and the List overload of nonNullElements calls the Collection overload.
 */
module Collections {
  import opened Wrappers
  import Text
  import ToString

  /** The text of the exception hasOnlyNullElements throws for a null collection. */
  const NullCollectionMessage := "The collection to check should not be null"

  // ---------------------------------------------------------------------------
  // list

  /** `list(elements...)`: the elements in argument order, duplicates kept; null for a null array. */
  method List<T>(elements: array?<T>) returns (r: Option<seq<T>>)
    ensures elements == null ==> r == None
    ensures elements != null ==> r == Some(elements[..])
  {
    if elements == null {
      return None;
    }
    var list: seq<T> := [];
    for i := 0 to elements.Length
      invariant list == elements[..i]
    {
      list := list + [elements[i]];
    }
    assert elements[..elements.Length] == elements[..];
    return Some(list);
  }

  // ---------------------------------------------------------------------------
  // set

  /** No element occurs twice. */
  predicate Distinct<T(==)>(s: seq<T>)
  {
    forall i, j :: 0 <= i < j < |s| ==> s[i] != s[j]
  }

  /**
   * What a LinkedHashSet holds after adding the elements of `s` in order: each distinct
   * element once, at the position of its first occurrence.
   */
  function FirstOccurrences<T(==)>(s: seq<T>): seq<T>
  {
    if |s| == 0 then []
    else
      var kept := FirstOccurrences(s[..|s| - 1]);
      if s[|s| - 1] in kept then kept else kept + [s[|s| - 1]]
  }

  /** Where `x` first occurs in `s`. */
  function FirstIndex<T(==)>(s: seq<T>, x: T): (k: nat)
    requires x in s
    ensures k < |s| && s[k] == x
    ensures forall j :: 0 <= j < k ==> s[j] != x
  {
    if x in s[..|s| - 1] then FirstIndex(s[..|s| - 1], x) else |s| - 1
  }

  /** `set(elements...)`: the distinct elements in first-occurrence order; null for a null array. */
  method Set<T(==)>(elements: array?<T>) returns (r: Option<seq<T>>)
    ensures elements == null ==> r == None
    ensures elements != null ==> r == Some(FirstOccurrences(elements[..]))
    ensures elements != null ==>
      Distinct(r.value) && |r.value| <= elements.Length &&
      forall x :: x in r.value <==> x in elements[..]
  {
    if elements == null {
      return None;
    }
    var linked: seq<T> := [];
    for i := 0 to elements.Length
      invariant linked == FirstOccurrences(elements[..i])
    {
      assert elements[..i + 1][..i] == elements[..i];
      if elements[i] !in linked {
        linked := linked + [elements[i]];
      }
    }
    assert elements[..elements.Length] == elements[..];
    FirstOccurrencesMembers(elements[..]);
    FirstOccurrencesDistinct(elements[..]);
    return Some(linked);
  }

  /** The set keeps exactly the input's elements, and is no longer than the input. */
  lemma {:induction false} FirstOccurrencesMembers<T>(s: seq<T>)
    ensures forall x :: x in FirstOccurrences(s) <==> x in s
    ensures |FirstOccurrences(s)| <= |s|
  {
    if |s| > 0 {
      var p := s[..|s| - 1];
      FirstOccurrencesMembers(p);
      assert s == p + [s[|s| - 1]];
    }
  }

  /** The set holds each element once. */
  lemma {:induction false} FirstOccurrencesDistinct<T>(s: seq<T>)
    ensures Distinct(FirstOccurrences(s))
  {
    if |s| > 0 {
      FirstOccurrencesDistinct(s[..|s| - 1]);
    }
  }

  /** The set lists its elements in the order in which they first occur in the input. */
  lemma {:induction false} FirstOccurrencesOrder<T>(s: seq<T>)
    ensures forall x :: x in FirstOccurrences(s) ==> x in s
    ensures forall i, j :: 0 <= i < j < |FirstOccurrences(s)| ==>
      FirstIndex(s, FirstOccurrences(s)[i]) < FirstIndex(s, FirstOccurrences(s)[j])
  {
    FirstOccurrencesMembers(s);
    if |s| > 0 {
      var p, y := s[..|s| - 1], s[|s| - 1];
      var kept := FirstOccurrences(p);
      FirstOccurrencesOrder(p);
      FirstOccurrencesMembers(p);
      // an element already in the prefix first occurs where it first occurs in the prefix
      assert forall x :: x in kept ==> FirstIndex(s, x) == FirstIndex(p, x);
      if y !in kept {
        assert FirstIndex(s, y) == |p|;
      }
    }
  }

  /** The set is as long as the input exactly when the input has no repeated element. */
  lemma {:induction false} FirstOccurrencesKeepsAllIffDistinct<T>(s: seq<T>)
    ensures |FirstOccurrences(s)| == |s| <==> Distinct(s)
  {
    if |s| > 0 {
      var p, y := s[..|s| - 1], s[|s| - 1];
      FirstOccurrencesKeepsAllIffDistinct(p);
      FirstOccurrencesMembers(p);
      if Distinct(s) {
        assert Distinct(p);
        assert y !in p;
      } else if |FirstOccurrences(s)| == |s| {
        // the last element was added, so it is new and the prefix was kept whole
        assert y !in FirstOccurrences(p);
        assert Distinct(p);
        assert Distinct(s);
      }
    }
  }

  /** An input without repeated elements comes back from set unchanged. */
  lemma {:induction false} FirstOccurrencesOfDistinct<T>(s: seq<T>)
    requires Distinct(s)
    ensures FirstOccurrences(s) == s
  {
    if |s| > 0 {
      var p := s[..|s| - 1];
      FirstOccurrencesOfDistinct(p);
      assert s[|s| - 1] !in p;
    }
  }

  /** set is idempotent: applying it to its own output changes nothing. */
  lemma SetIdempotent<T>(s: seq<T>)
    ensures FirstOccurrences(FirstOccurrences(s)) == FirstOccurrences(s)
  {
    FirstOccurrencesDistinct(s);
    FirstOccurrencesOfDistinct(FirstOccurrences(s));
  }

  // ---------------------------------------------------------------------------
  // duplicatesFrom

  /** The elements that occur at least twice in `s`. */
  function DuplicatesOf<T(==)>(s: seq<T>): set<T>
  {
    set x | x in s && multiset(s)[x] >= 2
  }

  /**
   * `duplicatesFrom(c)`: never null; empty for a null or empty collection, otherwise
   * the elements that occur more than once, each once.
   */
  method DuplicatesFrom<T(==)>(c: Option<seq<T>>) returns (duplicates: set<T>)
    ensures c.None? ==> duplicates == {}
    ensures c.Some? ==> duplicates == DuplicatesOf(c.value)
  {
    duplicates := {};
    if IsEmpty(c) {
      return;
    }
    var s := c.value;
    var onlyOne: set<T> := {};
    for i := 0 to |s|
      invariant forall x :: x in onlyOne <==> x in multiset(s[..i])
      invariant forall x :: x in duplicates <==> multiset(s[..i])[x] >= 2
    {
      assert s[..i + 1] == s[..i] + [s[i]];
      if s[i] in onlyOne {
        duplicates := duplicates + {s[i]};
        continue;
      }
      onlyOne := onlyOne + {s[i]};
    }
    assert s[..|s|] == s;
  }

  /** A sequence has no duplicates exactly when no element repeats. */
  lemma NoDuplicatesIffDistinct<T>(s: seq<T>)
    ensures DuplicatesOf(s) == {} <==> Distinct(s)
  {
    if Distinct(s) {
      DistinctCountsAtMostOne(s);
    } else {
      var i, j :| 0 <= i < j < |s| && s[i] == s[j];
      RepeatIsDuplicate(s, i, j);
    }
  }

  lemma {:induction false} DistinctCountsAtMostOne<T>(s: seq<T>)
    requires Distinct(s)
    ensures forall x :: multiset(s)[x] <= 1
  {
    if |s| > 0 {
      var p, y := s[..|s| - 1], s[|s| - 1];
      assert s == p + [y];
      DistinctCountsAtMostOne(p);
      assert y !in multiset(p);
    }
  }

  lemma RepeatIsDuplicate<T>(s: seq<T>, i: nat, j: nat)
    requires i < j < |s| && s[i] == s[j]
    ensures s[i] in DuplicatesOf(s)
  {
    assert s == s[..j] + [s[j]] + s[j + 1..];
    assert s[i] in s[..j];
  }

  /** set drops something exactly when duplicatesFrom finds something. */
  lemma SetShrinksIffDuplicates<T>(s: seq<T>)
    ensures |FirstOccurrences(s)| < |s| <==> DuplicatesOf(s) != {}
  {
    FirstOccurrencesMembers(s);
    FirstOccurrencesKeepsAllIffDistinct(s);
    NoDuplicatesIffDistinct(s);
  }

  // ---------------------------------------------------------------------------
  // isEmpty

  /** `isEmpty(c)`: the reference is null or the collection has no element. */
  function IsEmpty<T>(c: Option<seq<T>>): (r: bool)
    ensures r <==> c.None? || forall x :: x !in c.value
  {
    c.None? || (assert |c.value| > 0 ==> c.value[0] in c.value; |c.value| == 0)
  }

  // ---------------------------------------------------------------------------
  // format

  /**
   * `format(c)`: null for a null collection; otherwise "[", the elements' texts in
   * iteration order separated by ", ", then "]". The collection itself, found among its
   * elements, is written as "(this Collection)".
   */
  method Format(rt: ToString.Runtime, c: Option<seq<ToString.Element>>) returns (r: Option<string>)
    ensures c.None? ==> r == None
    ensures c.Some? ==> r == Some(ToString.CollectionText(rt, c.value))
  {
    if c.None? {
      return None;
    }
    var items := c.value;
    if |items| == 0 {
      return Some("[]");
    }
    ghost var texts := ToString.Texts(rt, items);
    var b := "[";
    var i := 0;
    while true
      invariant 0 <= i < |items|
      invariant b == "[" + Text.Join(texts[..i], ", ") + (if i == 0 then "" else ", ")
      decreases |items| - i
    {
      var e := items[i];
      b := b + ToString.ElementText(rt, e);
      assert texts[..i + 1][..i] == texts[..i];
      i := i + 1;
      assert b == "[" + Text.Join(texts[..i], ", ");
      if i == |items| {
        assert texts[..i] == texts;
        return Some(b + "]");
      }
      b := b + ", ";
    }
  }

  // ---------------------------------------------------------------------------
  // nonNullElements

  /** The non-null elements of `s`, in their order. */
  function NonNulls<T>(s: seq<Option<T>>): seq<Option<T>>
  {
    if |s| == 0 then []
    else NonNulls(s[..|s| - 1]) + (if s[|s| - 1].Some? then [s[|s| - 1]] else [])
  }

  /**
   * `nonNullElements(Collection)`: null for a null collection; otherwise a new collection
   * with the non-null elements in iteration order.
   */
  method NonNullElements<T>(c: Option<seq<Option<T>>>) returns (r: Option<seq<Option<T>>>)
    ensures c.None? ==> r == None
    ensures c.Some? ==> r == Some(NonNulls(c.value))
  {
    if c.None? {
      return None;
    }
    var s := c.value;
    var nonNullElements: seq<Option<T>> := [];
    for i := 0 to |s|
      invariant nonNullElements == NonNulls(s[..i])
    {
      assert s[..i + 1][..i] == s[..i];
      if s[i].Some? {
        nonNullElements := nonNullElements + [s[i]];
      }
    }
    assert s[..|s|] == s;
    return Some(nonNullElements);
  }

  /** `nonNullElements(List)`: the same elements in the same order, copied into a new list. */
  method NonNullElementsOfList<T>(l: Option<seq<Option<T>>>) returns (r: Option<seq<Option<T>>>)
    ensures l.None? ==> r == None
    ensures l.Some? ==> r == Some(NonNulls(l.value))
  {
    var nonNullElements := NonNullElements(l);
    if nonNullElements.None? {
      return None;
    }
    return Some(nonNullElements.value);
  }

  /** The filtered collection holds no null. */
  lemma {:induction false} NonNullsHasNoNull<T>(s: seq<Option<T>>)
    ensures forall i :: 0 <= i < |NonNulls(s)| ==> NonNulls(s)[i].Some?
  {
    if |s| > 0 {
      NonNullsHasNoNull(s[..|s| - 1]);
    }
  }

  /** Every non-null element is kept as often as it occurs; every null is dropped. */
  lemma {:induction false} NonNullsCounts<T>(s: seq<Option<T>>)
    ensures multiset(NonNulls(s)) == multiset(s)[None := 0]
  {
    if |s| > 0 {
      var p := s[..|s| - 1];
      NonNullsCounts(p);
      assert s == p + [s[|s| - 1]];
    }
  }

  /** Filtering keeps relative order: filtering a concatenation concatenates the filtered parts. */
  lemma {:induction false} NonNullsConcat<T>(a: seq<Option<T>>, b: seq<Option<T>>)
    ensures NonNulls(a + b) == NonNulls(a) + NonNulls(b)
  {
    if |b| == 0 {
      assert a + b == a;
    } else {
      var b' := b[..|b| - 1];
      assert (a + b)[..|a + b| - 1] == a + b';
      NonNullsConcat(a, b');
    }
  }

  /** The filtered collection is empty exactly when every element is null (or there is none). */
  lemma {:induction false} NonNullsEmptyIffAllNull<T>(s: seq<Option<T>>)
    ensures NonNulls(s) == [] <==> forall i :: 0 <= i < |s| ==> s[i].None?
  {
    if |s| > 0 {
      var p := s[..|s| - 1];
      NonNullsEmptyIffAllNull(p);
      if forall i :: 0 <= i < |s| ==> s[i].None? {
        assert forall i :: 0 <= i < |p| ==> p[i].None?;
      }
    }
  }

  // ---------------------------------------------------------------------------
  // hasOnlyNullElements

  /** The collection has at least one element, and every element is null. */
  predicate OnlyNulls<T>(s: seq<Option<T>>)
  {
    |s| > 0 && forall i :: 0 <= i < |s| ==> s[i].None?
  }

  /**
   * `hasOnlyNullElements(c)`: throws for a null collection; false for an empty one;
   * otherwise whether every element is null.
   */
  method HasOnlyNullElements<T>(c: Option<seq<Option<T>>>) returns (r: Result<bool>)
    ensures c.None? ==> r == Failure(NullPointerException(NullCollectionMessage))
    ensures c.Some? ==> r == Success(OnlyNulls(c.value))
  {
    if c.None? {
      return Failure(NullPointerException(NullCollectionMessage));
    }
    var s := c.value;
    if |s| == 0 {
      return Success(false);
    }
    for i := 0 to |s|
      invariant forall j :: 0 <= j < i ==> s[j].None?
    {
      if s[i].Some? {
        return Success(false);
      }
    }
    return Success(true);
  }

  /**
   * hasOnlyNullElements holds of a collection exactly when it is non-empty and
   * nonNullElements of it is empty.
   */
  lemma OnlyNullsIffNothingSurvivesFilter<T>(s: seq<Option<T>>)
    ensures OnlyNulls(s) <==> |s| > 0 && NonNulls(s) == []
  {
    NonNullsEmptyIffAllNull(s);
  }
}
