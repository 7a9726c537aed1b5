# fest-util collection helpers and toStringOf, in Dafny

This project models two classes of the fest-util library:

- `org.fest.util.Collections`: `list` and `set` build containers from varargs, `duplicatesFrom`
  finds repeated elements, `isEmpty` tests for null or empty, `format` renders a collection as
  `[e1, e2, ...]`, the two `nonNullElements` overloads filter out nulls, and
  `hasOnlyNullElements` tests for an all-null collection (throwing for a null one).
- `org.fest.util.ToString`: `toStringOf`, a chain of type tests in which the first test that
  matches decides how a value is rendered (array, Class, Collection, Map, File, Dimension,
  String, else the object's own `toString`, and null for null).

How Java is represented:

- A null reference is `None` (`Wrappers.Option`). A varargs parameter is an `array?`; a
  `Collection` is a sequence in iteration order, wrapped in `Option` because the reference may
  be null. The exception thrown by `hasOnlyNullElements` is a `Wrappers.Result` failure.
- Every helper of `Collections` that loops in Java is a method with the same loop. Each is
  proved against a function that says what its result holds: `FirstOccurrences` (what the
  LinkedHashSet of `set` ends up holding), `DuplicatesOf`, `NonNulls`, `OnlyNulls` and
  `ToString.CollectionText` (what `format` returns). Lemmas prove what the Java documentation
  promises about those functions. `isEmpty` has no loop and is a function. The `List`
  overload of `nonNullElements` is a method that calls the `Collection` overload.
- None of the methods has a `modifies` clause, so Dafny's framing guarantees that no helper
  changes its argument. Every result is a new value.
- A value seen by `toStringOf` is `ToString.Value`: `Null`, or an object described by the
  outcome of each type test. The tests may overlap, because a class can implement both
  `Collection` and `Map`, so the order of the tests matters. `FirstMatchWins` proves that the
  first matching category in `DispatchOrder` decides.
- `toStringOf` on a collection calls `Collections.format`, which calls `toStringOf` on each
  element. The pure side of this mutual recursion (`ToStringOf`, `CollectionText`,
  `ElementText`) lives in module `ToString`, and terminates on the structure of the value.
  The method `Collections.Format` is proved to return `CollectionText`.
- Reference identity is modelled only where the code tests it: an element that is the
  collection being formatted (`e == c`) is the `Element.This` marker.
- `StringBuilder.append(String)` appends `"null"` for a null reference (`Text.Show`). So a null
  element, or an object whose `toString` returns null, shows up as `null` inside `format`'s
  text.
- The code that `toStringOf` calls but is not part of this model is a `ToString.Runtime`
  parameter. That code is `Arrays.format`, `Class.getName`, `Maps.format`,
  `File.getAbsolutePath` and the object's own `toString`, all indexed by object id, and
  `Strings.quote`, which takes the String's characters.
  Nothing is assumed about the text they return, except that only the object's own
  `toString` may return null (see "Left out").
- Where documentation and code disagree, the model follows the code. The doc comment of
  `hasOnlyNullElements` says an empty collection gives `true`, but the code returns `false`
  (Collections.java:156). `HasOnlyNullElements` returns `false`.

## Model

| member | source | states |
|---|---|---|
| `Collections.List` | src/main/java/org/fest/util/Collections.java:37-41 | null varargs give null; otherwise a list of exactly the arguments, in order, duplicates kept |
| `Collections.Set` | src/main/java/org/fest/util/Collections.java:51-55 | null varargs give null; otherwise what the LinkedHashSet holds after adding every argument: distinct elements, exactly the arguments' elements, no longer than the input |
| `Collections.FirstOccurrencesMembers` | src/main/java/org/fest/util/Collections.java:51-55 | the set holds an element iff the input does, and is at most as long as the input |
| `Collections.FirstOccurrencesDistinct` | src/main/java/org/fest/util/Collections.java:51-55 | the set holds each element once |
| `Collections.FirstOccurrencesOrder` | src/main/java/org/fest/util/Collections.java:51-55 | the set lists elements in the order of their first occurrence in the input |
| `Collections.FirstOccurrencesKeepsAllIffDistinct` | src/main/java/org/fest/util/Collections.java:51-55 | the set is as long as the input iff no input element repeats |
| `Collections.FirstOccurrencesOfDistinct` | src/main/java/org/fest/util/Collections.java:51-55 | an input without repeats comes back unchanged |
| `Collections.SetIdempotent` | src/main/java/org/fest/util/Collections.java:51-55 | applying set to its own output changes nothing |
| `Collections.DuplicatesFrom` | src/main/java/org/fest/util/Collections.java:65-77 | never null; a null or empty input gives the empty set; otherwise an element is in the result iff it occurs at least twice in the input |
| `Collections.NoDuplicatesIffDistinct` | src/main/java/org/fest/util/Collections.java:65-77 | duplicatesFrom finds nothing iff no element repeats |
| `Collections.SetShrinksIffDuplicates` | src/main/java/org/fest/util/Collections.java:51-77 | set drops an element iff duplicatesFrom of the same input is non-empty |
| `Collections.IsEmpty` | src/main/java/org/fest/util/Collections.java:84-86 | true iff the reference is null or the collection has no element |
| `Collections.Format` | src/main/java/org/fest/util/Collections.java:98-110 | null for null; otherwise the StringBuilder loop yields exactly `CollectionText`, which is also what `toStringOf` gives for that collection |
| `ToString.CollectionText` | src/main/java/org/fest/util/Collections.java:98-110 | an empty collection gives exactly "[]"; every result starts with '[' and ends with ']' |
| `ToString.SelfReferenceIsMarked` | src/main/java/org/fest/util/Collections.java:106 | at any position where a collection holds itself, that element's text is "(this Collection)" instead of a recursive rendering |
| `ToString.NullElementIsShownAsNull` | src/main/java/org/fest/util/Collections.java:106 | at any position where a collection holds null, that element's text is "null" |
| `ToString.CollectionTextSnoc` | src/main/java/org/fest/util/Collections.java:104-109 | iteration order: a further element adds ", " and its text just before the closing ']' |
| `ToString.CollectionTextCons` | src/main/java/org/fest/util/Collections.java:102-109 | iteration order: the first element's text comes right after '[' and is followed by ", " and the rest |
| `Collections.NonNullElements` | src/main/java/org/fest/util/Collections.java:122-128 | null for null; otherwise the input with every null removed |
| `Collections.NonNullElementsOfList` | src/main/java/org/fest/util/Collections.java:140-144 | the List overload gives the same elements in the same order as the Collection overload |
| `Collections.NonNullsHasNoNull` | src/main/java/org/fest/util/Collections.java:122-128 | the filtered collection contains no null |
| `Collections.NonNullsCounts` | src/main/java/org/fest/util/Collections.java:122-128 | each non-null element is kept as often as it occurs and nulls are dropped (multiset equality) |
| `Collections.NonNullsConcat` | src/main/java/org/fest/util/Collections.java:122-128 | filtering keeps relative order: filtering a concatenation concatenates the filtered parts |
| `Collections.NonNullsEmptyIffAllNull` | src/main/java/org/fest/util/Collections.java:122-128 | the result is empty iff the input is empty or all null |
| `Collections.HasOnlyNullElements` | src/main/java/org/fest/util/Collections.java:154-160 | a null collection throws a NullPointerException with the source's message; an empty one gives false; otherwise true iff every element is null |
| `Collections.OnlyNullsIffNothingSurvivesFilter` | src/main/java/org/fest/util/Collections.java:122-160 | hasOnlyNullElements holds of a collection iff it is non-empty and nonNullElements of it is empty |
| `ToString.ToStringOf` | src/main/java/org/fest/util/ToString.java:32-41 | null for null; a non-null object gives null only when its own toString does. The branches are pinned by `FirstMatchWins`, `NoMatchFallsBack`, `NullOnlyForNull` and the per-branch lemmas below |
| `ToString.RenderAs` | src/main/java/org/fest/util/ToString.java:47-65 | the private overloads, one per category: a collection's text is bracketed, a Dimension's starts with "(w=" and ends with ')'. `FirstMatchWins` proves it is what `toStringOf` returns for the first matching category |
| `ToString.ElementText` | src/main/java/org/fest/util/Collections.java:106 | the collection itself is appended as "(this Collection)", a null element as "null", any other element as its non-null toStringOf text |
| `Text.Show` | src/main/java/org/fest/util/Collections.java:106 | what StringBuilder.append adds for a String: the text itself, or "null" for null; the result is "null" exactly for null and for the text "null" |
| `ToString.FirstMatchWins` | src/main/java/org/fest/util/ToString.java:33-40 | the first category in the order array, Class, Collection, Map, File, Dimension, String whose test the object passes decides its rendering, whatever later tests say |
| `ToString.NoMatchFallsBack` | src/main/java/org/fest/util/ToString.java:40 | an object passing no test renders as its own toString |
| `ToString.NullOnlyForNull` | src/main/java/org/fest/util/ToString.java:40 | the result is null iff the value is null or is an uncategorised object whose toString is null; null never becomes "null" |
| `ToString.ArrayRendersViaArraysFormat` | src/main/java/org/fest/util/ToString.java:33 | an array renders as Arrays.format of it, before any other test |
| `ToString.ClassRendersAsName` | src/main/java/org/fest/util/ToString.java:47-49 | a Class renders as its name |
| `ToString.CollectionRendersAsFormat` | src/main/java/org/fest/util/ToString.java:51-53 | a collection renders exactly as Collections.format of it, recursively for nested collections |
| `ToString.MapRendersViaMapsFormat` | src/main/java/org/fest/util/ToString.java:55-57 | a Map that is not a collection renders as Maps.format of it |
| `ToString.FileRendersAsAbsolutePath` | src/main/java/org/fest/util/ToString.java:59-61 | a File renders as its absolute path |
| `ToString.DimensionRendersAsSize` | src/main/java/org/fest/util/ToString.java:63-65 | a Dimension renders as "(w=" + width + ", h=" + height + ")", both in decimal |
| `ToString.DimensionText` | src/main/java/org/fest/util/ToString.java:63-65 | the text starts with "(w=" and ends with ')' |
| `ToString.DimensionTextReadsBack` | src/main/java/org/fest/util/ToString.java:63-65 | the width reads back from the text after "(w=", and the height from the text between ", h=" and ')' |
| `ToString.DimensionTextInjective` | src/main/java/org/fest/util/ToString.java:63-65 | two Dimensions with the same text have the same width and height |
| `Text.Decimal` | src/main/java/org/fest/util/ToString.java:64 | the decimal text of an int (`%s` on an int) is non-empty and all digits, except a leading '-' for a negative number |
| `Text.DecimalRoundTrip` | src/main/java/org/fest/util/ToString.java:64 | the decimal text of an int reads back as that int |
| `ToString.StringRendersQuoted` | src/main/java/org/fest/util/ToString.java:39 | a String renders as quote(s), not as its raw characters |

## Left out

- `Collections.filter` (Collections.java:88-90) only delegates to `CollectionFilter.filter`; `CollectionFilter` is not part of this model.
- `Arrays.isArray`, `Arrays.format`, `Maps.format` and `Strings.quote` are not part of this model. `isArray` is the `isArray` flag of an object (never true for null); the other three are unspecified functions in `ToString.Runtime`.
- `ToString.NullOnlyForNull` assumes that `Arrays.format`, `Class.getName`, `Maps.format`, `File.getAbsolutePath` and `Strings.quote` never return null for a non-null argument: their `Runtime` fields return a `string`, not an `Option`. Only the object's own `toString` may return null.
- `ToString.ToStringOf` rests on the same assumption: its promise that only the object's own `toString` can make the result null holds because the other collaborators are typed as never returning null.
- `Class.getName`, `File.getAbsolutePath` and `Object.toString` depend on the JVM and the file system; they are unspecified functions in `ToString.Runtime`.
- The unmodifiable wrappers of `nonNullElements`: a Dafny sequence cannot be changed by anyone, so the exception on an attempted change is not modelled.
- Hashing and `equals`/`hashCode`: element equality is Dafny value equality, and the `HashSet` of `duplicatesFrom` is an unordered `set`.
- Reference identity beyond `e == c`. A collection that contains itself only deeper down (inside a nested collection) makes the Java code recurse without end; such a value cannot be written in this model.
- The iterator of `format` is an index into the sequence; concurrent modification of an input is not modelled.
