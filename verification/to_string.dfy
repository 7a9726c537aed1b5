/**
 * ToString.toStringOf: the display text of any reference, chosen by a chain of type tests
 * in which the first test that matches decides. A collection is rendered the way
 * Collections.format renders it, so the two are defined here together, by mutual recursion.
 */
module ToString {
  import opened Wrappers
  import Text

  /** Java's `int`. */
  newtype Int32 = x: int | -0x8000_0000 <= x < 0x8000_0000

  /** A java.awt.Dimension: its two public int fields. */
  datatype Dimension = Dimension(width: Int32, height: Int32)

  /** A Java reference as toStringOf sees it. */
  datatype Value = Null | Object(obj: JavaObject)

  /**
   * A non-null object, described by what each of toStringOf's type tests finds in it.
   * `id` stands for the object's identity; the collaborators in Runtime other than
   * Strings.quote are indexed by it.
   * The tests may overlap (one class can implement both Collection and Map, or extend File
   * and implement Collection): then the order of the tests decides.
   */
  datatype JavaObject = JavaObject(
    id: nat,
    isArray: bool,               // what Arrays.isArray reports
    isClass: bool,               // o instanceof Class
    collection: CollectionView,  // o instanceof Collection, with its elements in iteration order
    isMap: bool,                 // o instanceof Map
    isFile: bool,                // o instanceof File
    dimension: Option<Dimension>,  // o instanceof Dimension, with its fields
    text: Option<string>)        // o instanceof String, with its characters

  datatype CollectionView = NotCollection | Collection(items: seq<Element>)

  /**
   * An element of a collection: the collection itself (`e == c` in Collections.format),
   * or some other reference, possibly null.
   */
  datatype Element = This | Item(value: Value)

  /**
   * The code toStringOf calls that is not part of this model: Arrays.format,
   * Class.getName, Maps.format, File.getAbsolutePath and the object's own toString (which,
   * unlike the others, may return null), all indexed by object id, and Strings.quote,
   * which takes the String's characters.
   */
  datatype Runtime = Runtime(
    arraysFormat: nat -> string,
    className: nat -> string,
    mapsFormat: nat -> string,
    absolutePath: nat -> string,
    quote: string -> string,
    objectToString: nat -> Option<string>)

  /**
   * The display text of `v`: null for a null reference, and otherwise null only when the
   * object falls through every test and its own toString returns null.
   */
  function ToStringOf(rt: Runtime, v: Value): (r: Option<string>)
    decreases v, 0
    ensures v.Null? ==> r.None?
    ensures r.None? ==> v.Null? || rt.objectToString(v.obj.id).None?
  {
    match v
    case Null => None
    case Object(o) =>
      if o.isArray then Some(rt.arraysFormat(o.id))
      else if o.isClass then Some(rt.className(o.id))
      else if o.collection.Collection? then Some(CollectionText(rt, o.collection.items))
      else if o.isMap then Some(rt.mapsFormat(o.id))
      else if o.isFile then Some(rt.absolutePath(o.id))
      else if o.dimension.Some? then Some(DimensionText(o.dimension.value))
      else if o.text.Some? then Some(rt.quote(o.text.value))
      else rt.objectToString(o.id)
  }

  /**
   * What Collections.format returns for a non-null collection with these elements:
   * "[]" when it is empty, otherwise the element texts between brackets, separated by ", ".
   */
  function CollectionText(rt: Runtime, items: seq<Element>): (r: string)
    decreases items, 2
    ensures |items| == 0 ==> r == "[]"
    ensures |r| >= 2 && r[0] == '[' && r[|r| - 1] == ']'
  {
    if |items| == 0 then "[]" else "[" + Text.Join(Texts(rt, items), ", ") + "]"
  }

  /** The text of each element, in iteration order. */
  function Texts(rt: Runtime, items: seq<Element>): seq<string>
    decreases items, 1
  {
    seq(|items|, i requires 0 <= i < |items| => ElementText(rt, items[i]))
  }

  /**
   * What Collections.format appends for one element: a fixed marker for the collection
   * itself, otherwise the element's toStringOf, where a null text is appended as "null".
   */
  function ElementText(rt: Runtime, e: Element): (r: string)
    decreases e, 0
    ensures e.This? ==> r == "(this Collection)"
    ensures e == Item(Null) ==> r == "null"
    ensures e.Item? && ToStringOf(rt, e.value).Some? ==> r == ToStringOf(rt, e.value).value
  {
    match e
    case This => "(this Collection)"
    case Item(v) => Text.Show(ToStringOf(rt, v))
  }

  /** The width and the height in decimal, as "(w=<width>, h=<height>)". */
  function DimensionText(d: Dimension): (r: string)
    ensures |r| >= 10 && r[..3] == "(w=" && r[|r| - 1] == ')'
  {
    "(w=" + Text.Decimal(d.width as int) + ", h=" + Text.Decimal(d.height as int) + ")"
  }

  /** Both numbers can be read back from their places in a Dimension's text. */
  lemma DimensionTextReadsBack(d: Dimension)
    ensures var r, w := DimensionText(d), |Text.Decimal(d.width as int)|;
      3 + w + 4 < |r| && r[3 + w..3 + w + 4] == ", h=" &&
      Text.ParseDecimal(r[3..3 + w]) == d.width as int &&
      Text.ParseDecimal(r[3 + w + 4..|r| - 1]) == d.height as int
  {
    var w, h := Text.Decimal(d.width as int), Text.Decimal(d.height as int);
    var r := DimensionText(d);
    assert r[3..3 + |w|] == w && r[3 + |w| + 4..|r| - 1] == h;
    Text.DecimalRoundTrip(d.width as int);
    Text.DecimalRoundTrip(d.height as int);
  }

  // ---------------------------------------------------------------------------
  // The dispatch, restated as a list of categories tried in order.

  /** The categories toStringOf tests for. */
  datatype Kind = ArrayKind | ClassKind | CollectionKind | MapKind | FileKind | DimensionKind | StringKind

  /** The order in which toStringOf tries the categories. */
  const DispatchOrder: seq<Kind> :=
    [ArrayKind, ClassKind, CollectionKind, MapKind, FileKind, DimensionKind, StringKind]

  /** Whether `o` passes the type test for category `k`. */
  predicate Is(o: JavaObject, k: Kind)
  {
    match k
    case ArrayKind => o.isArray
    case ClassKind => o.isClass
    case CollectionKind => o.collection.Collection?
    case MapKind => o.isMap
    case FileKind => o.isFile
    case DimensionKind => o.dimension.Some?
    case StringKind => o.text.Some?
  }

  /** How an object is rendered as a member of category `k`: the private toStringOf overloads. */
  function RenderAs(rt: Runtime, o: JavaObject, k: Kind): (r: string)
    requires Is(o, k)
    ensures k == CollectionKind ==> |r| >= 2 && r[0] == '[' && r[|r| - 1] == ']'
    ensures k == DimensionKind ==> |r| >= 10 && r[..3] == "(w=" && r[|r| - 1] == ')'
  {
    match k
    case ArrayKind => rt.arraysFormat(o.id)
    case ClassKind => rt.className(o.id)
    case CollectionKind => CollectionText(rt, o.collection.items)
    case MapKind => rt.mapsFormat(o.id)
    case FileKind => rt.absolutePath(o.id)
    case DimensionKind => DimensionText(o.dimension.value)
    case StringKind => rt.quote(o.text.value)
  }

  /** The first category in DispatchOrder whose test `o` passes decides its rendering. */
  lemma FirstMatchWins(rt: Runtime, o: JavaObject, i: nat)
    requires i < |DispatchOrder| && Is(o, DispatchOrder[i])
    requires forall j :: 0 <= j < i ==> !Is(o, DispatchOrder[j])
    ensures ToStringOf(rt, Object(o)) == Some(RenderAs(rt, o, DispatchOrder[i]))
  {
    // the tests that come before the matching one all fail
    if 0 < i { assert !Is(o, DispatchOrder[0]); }
    if 1 < i { assert !Is(o, DispatchOrder[1]); }
    if 2 < i { assert !Is(o, DispatchOrder[2]); }
    if 3 < i { assert !Is(o, DispatchOrder[3]); }
    if 4 < i { assert !Is(o, DispatchOrder[4]); }
    if 5 < i { assert !Is(o, DispatchOrder[5]); }
  }

  /** An object that passes none of the tests is rendered by its own toString. */
  lemma NoMatchFallsBack(rt: Runtime, o: JavaObject)
    requires forall k :: !Is(o, k)
    ensures ToStringOf(rt, Object(o)) == rt.objectToString(o.id)
  {
    assert !Is(o, ArrayKind) && !Is(o, ClassKind) && !Is(o, CollectionKind) && !Is(o, MapKind);
    assert !Is(o, FileKind) && !Is(o, DimensionKind) && !Is(o, StringKind);
  }

  /**
   * toStringOf yields null exactly for the null reference, and for an object of no known
   * category whose own toString returns null; never the text "null".
   */
  lemma NullOnlyForNull(rt: Runtime, v: Value)
    ensures ToStringOf(rt, v).None? <==>
      v.Null? || ((forall k :: !Is(v.obj, k)) && rt.objectToString(v.obj.id).None?)
  {
    if v.Object? {
      var o := v.obj;
      if forall k :: !Is(o, k) {
        NoMatchFallsBack(rt, o);
      }
    }
  }

  // ---------------------------------------------------------------------------
  // One lemma per branch of the dispatch.

  /** An array is rendered by Arrays.format, whatever else it is. */
  lemma ArrayRendersViaArraysFormat(rt: Runtime, o: JavaObject)
    requires o.isArray
    ensures ToStringOf(rt, Object(o)) == Some(rt.arraysFormat(o.id))
  {
    FirstMatchWins(rt, o, 0);
  }

  /** A Class is rendered by its name. */
  lemma ClassRendersAsName(rt: Runtime, o: JavaObject)
    requires !o.isArray && o.isClass
    ensures ToStringOf(rt, Object(o)) == Some(rt.className(o.id))
  {
    FirstMatchWins(rt, o, 1);
  }

  /** A collection is rendered exactly as Collections.format renders it. */
  lemma CollectionRendersAsFormat(rt: Runtime, o: JavaObject)
    requires !o.isArray && !o.isClass && o.collection.Collection?
    ensures ToStringOf(rt, Object(o)) == Some(CollectionText(rt, o.collection.items))
  {
    FirstMatchWins(rt, o, 2);
  }

  /** A Map that is not also a collection is rendered by Maps.format. */
  lemma MapRendersViaMapsFormat(rt: Runtime, o: JavaObject)
    requires !o.isArray && !o.isClass && o.collection.NotCollection? && o.isMap
    ensures ToStringOf(rt, Object(o)) == Some(rt.mapsFormat(o.id))
  {
    FirstMatchWins(rt, o, 3);
  }

  /** A File is rendered by its absolute path. */
  lemma FileRendersAsAbsolutePath(rt: Runtime, o: JavaObject)
    requires !o.isArray && !o.isClass && o.collection.NotCollection? && !o.isMap && o.isFile
    ensures ToStringOf(rt, Object(o)) == Some(rt.absolutePath(o.id))
  {
    FirstMatchWins(rt, o, 4);
  }

  /** A Dimension is rendered as "(w=<width>, h=<height>)" with both fields in decimal. */
  lemma DimensionRendersAsSize(rt: Runtime, o: JavaObject, d: Dimension)
    requires !o.isArray && !o.isClass && o.collection.NotCollection? && !o.isMap && !o.isFile
    requires o.dimension == Some(d)
    ensures ToStringOf(rt, Object(o)) ==
      Some("(w=" + Text.Decimal(d.width as int) + ", h=" + Text.Decimal(d.height as int) + ")")
  {
    FirstMatchWins(rt, o, 5);
  }

  /** A String is rendered quoted, not as its raw characters. */
  lemma StringRendersQuoted(rt: Runtime, o: JavaObject, s: string)
    requires !o.isArray && !o.isClass && o.collection.NotCollection? && !o.isMap && !o.isFile
    requires o.dimension.None? && o.text == Some(s)
    ensures ToStringOf(rt, Object(o)) == Some(rt.quote(s))
  {
    FirstMatchWins(rt, o, 6);
  }

  /** Two Dimensions with the same text have the same width and height. */
  lemma DimensionTextInjective(d1: Dimension, d2: Dimension)
    requires DimensionText(d1) == DimensionText(d2)
    ensures d1 == d2
  {
    SizeTextSplits(Text.Decimal(d1.width as int), Text.Decimal(d1.height as int),
                   Text.Decimal(d2.width as int), Text.Decimal(d2.height as int));
    Text.DecimalInjective(d1.width as int, d2.width as int);
    Text.DecimalInjective(d1.height as int, d2.height as int);
  }

  /** "(w=" + w + ", h=" + h + ")" determines w and h when w holds no ','. */
  lemma SizeTextSplits(w1: string, h1: string, w2: string, h2: string)
    requires forall i :: 0 <= i < |w1| ==> Text.IsDigit(w1[i]) || w1[i] == '-'
    requires forall i :: 0 <= i < |w2| ==> Text.IsDigit(w2[i]) || w2[i] == '-'
    requires "(w=" + w1 + ", h=" + h1 + ")" == "(w=" + w2 + ", h=" + h2 + ")"
    ensures w1 == w2 && h1 == h2
  {
    var s := "(w=" + w1 + ", h=" + h1 + ")";
    var rest1, rest2 := ", h=" + h1 + ")", ", h=" + h2 + ")";
    var t1, t2 := w1 + rest1, w2 + rest2;
    assert s == "(w=" + t1 && s == "(w=" + t2;
    assert t1 == s[3..] == t2;
    // the width text runs up to the first ','
    CommaEndsDecimal(w1, rest1);
    CommaEndsDecimal(w2, rest2);
    assert w1 == t1[..|w1|] && w2 == t2[..|w2|];
    assert rest1 == t1[|w1|..] && rest2 == t2[|w2|..];
    assert h1 == rest1[4..|rest1| - 1] && h2 == rest2[4..|rest2| - 1];
  }

  /** The index of the first ',' in `s`, or |s| when there is none. */
  function CommaIndex(s: string): nat
  {
    if |s| == 0 || s[0] == ',' then 0 else 1 + CommaIndex(s[1..])
  }

  lemma {:induction false} CommaEndsDecimal(digits: string, rest: string)
    requires forall i :: 0 <= i < |digits| ==> Text.IsDigit(digits[i]) || digits[i] == '-'
    requires |rest| > 0 && rest[0] == ','
    ensures CommaIndex(digits + rest) == |digits|
  {
    if |digits| > 0 {
      assert (digits + rest)[1..] == digits[1..] + rest;
      CommaEndsDecimal(digits[1..], rest);
    }
  }

  // ---------------------------------------------------------------------------
  // Properties of the collection text.

  /**
   * Wherever the collection itself sits among its elements, its text there is the marker
   * "(this Collection)": format does not recurse into it.
   */
  lemma SelfReferenceIsMarked(rt: Runtime, items: seq<Element>, i: nat)
    requires i < |items| && items[i] == This
    ensures |Texts(rt, items)| == |items| && Texts(rt, items)[i] == "(this Collection)"
  {
  }

  /** Wherever a null element sits, its text there is "null": it is not skipped. */
  lemma NullElementIsShownAsNull(rt: Runtime, items: seq<Element>, i: nat)
    requires i < |items| && items[i] == Item(Null)
    ensures |Texts(rt, items)| == |items| && Texts(rt, items)[i] == "null"
  {
  }

  /** Elements appear in iteration order: a later element's text is appended at the end. */
  lemma {:induction false} CollectionTextSnoc(rt: Runtime, items: seq<Element>, e: Element)
    requires |items| > 0
    ensures var t := CollectionText(rt, items);
      CollectionText(rt, items + [e]) == t[..|t| - 1] + ", " + ElementText(rt, e) + "]"
  {
    var texts := Texts(rt, items + [e]);
    assert texts[..|texts| - 1] == Texts(rt, items);
    var t := CollectionText(rt, items);
    assert t[..|t| - 1] == "[" + Text.Join(Texts(rt, items), ", ");
  }

  /** Elements appear in iteration order: the first element's text comes right after '['. */
  lemma {:induction false} CollectionTextCons(rt: Runtime, e: Element, items: seq<Element>)
    requires |items| > 0
    ensures CollectionText(rt, [e] + items) ==
      "[" + ElementText(rt, e) + ", " + CollectionText(rt, items)[1..]
  {
    var head, tail := ElementText(rt, e), Texts(rt, items);
    assert Texts(rt, [e] + items) == [head] + tail;
    Text.JoinCons(head, tail, ", ");
    var t := CollectionText(rt, items);
    assert t == "[" + Text.Join(tail, ", ") + "]";
    assert t[1..] == Text.Join(tail, ", ") + "]";
  }
}
