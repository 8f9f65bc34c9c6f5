/**
 * Values shared by the whole model: identifiers, parsed JSON, the shape of
 * an HTTP reply, the `{ id, ...data }` listing entry, and the array-union
 * update that the document store applies to array fields.
 */
module Common {

  /** Document identifiers are strings (Firestore document ids). */
  type Id = string

  datatype Option<+T> = None | Some(value: T)

  /**
   * A parsed JSON value: what `JSON.parse` produces and what is stored as a
   * video's metadata. The model never inspects its structure. A number is
   * kept in decimal form, `mantissa * 10^exponent`, so fractions fit too.
   */
  datatype Json =
    | JNull
    | JBool(b: bool)
    | JNumber(mantissa: int, exponent: int)
    | JString(s: string)
    | JArray(items: seq<Json>)
    | JObject(fields: map<string, Json>)

  /** The JSON body of a reply, by the key the handler puts in it. */
  datatype Body<+T> =
    | Data(value: T)                      // the document itself, unwrapped
    | Keyed(key: string, value: T)        // { <key>: ... }
    | Message(message: string)            // { message: ... }
    | Error(error: string)                // { error: ... }
    | IdMessage(id: Id, message: string)  // { id: ..., message: ... }

  /** What a handler sends: `res.status(status).json(body)`. */
  datatype Reply<+T> = Reply(status: nat, body: Body<T>)

  /** The body every handler's catch block sends with status 500. */
  const GenericError := "An error occurred."

  /** `{ id, ...data }`: a document together with the id it is stored under. */
  datatype Entry<+D> = Entry(id: Id, data: D)

  /**
   * Firestore's `FieldValue.arrayUnion(x)` applied to an array field: `x` is
   * appended unless an equal element is already present.
   */
  function ArrayUnion<T(==)>(s: seq<T>, x: T): (r: seq<T>)
    ensures x in r
    ensures s <= r && |r| <= |s| + 1
    ensures forall y | y in r :: y in s || y == x
    ensures x in s <==> r == s
  {
    if x in s then s else s + [x]
  }

  /** Number of occurrences of `x` in `s`. */
  function Count<T(==)>(s: seq<T>, x: T): nat {
    multiset(s)[x]
  }

  /** No element occurs twice. */
  predicate NoDuplicates<T(==)>(s: seq<T>) {
    forall i, j :: 0 <= i < j < |s| ==> s[i] != s[j]
  }

  /** A union never duplicates the added element and never drops another. */
  lemma ArrayUnionCount<T>(s: seq<T>, x: T)
    ensures Count(ArrayUnion(s, x), x) == if x in s then Count(s, x) else 1
    ensures forall y :: y != x ==> Count(ArrayUnion(s, x), y) == Count(s, y)
  {
    if x !in s {
      assert multiset(s)[x] == 0;
      assert multiset(s + [x]) == multiset(s) + multiset{x};
    }
  }

  /** Applying the same union twice is the same as applying it once. */
  lemma ArrayUnionIdempotent<T>(s: seq<T>, x: T)
    ensures ArrayUnion(ArrayUnion(s, x), x) == ArrayUnion(s, x)
  {
  }

  /** A union keeps an array free of duplicates. */
  lemma {:induction false} ArrayUnionNoDuplicates<T>(s: seq<T>, x: T)
    requires NoDuplicates(s)
    ensures NoDuplicates(ArrayUnion(s, x))
  {
    if x !in s {
      var r := s + [x];
      forall i, j | 0 <= i < j < |r| ensures r[i] != r[j] {
        if j == |s| {
          assert r[i] == s[i];
        }
      }
    }
  }

  /**
   * Two unions applied in either order leave the same set of elements in the
   * array: interleaved submissions to the same document lose no id.
   */
  lemma ArrayUnionCommutes<T>(s: seq<T>, a: T, b: T)
    ensures forall y :: y in ArrayUnion(ArrayUnion(s, a), b) <==> y in ArrayUnion(ArrayUnion(s, b), a)
    ensures |ArrayUnion(ArrayUnion(s, a), b)| == |ArrayUnion(ArrayUnion(s, b), a)|
  {
  }

  /** A sequence of unions, one after the other, as concurrent requests would issue them. */
  function UnionAll<T(==)>(s: seq<T>, xs: seq<T>): (r: seq<T>)
    decreases |xs|
  {
    if xs == [] then s else UnionAll(ArrayUnion(s, xs[0]), xs[1..])
  }

  /**
   * However many unions run, the array ends up holding exactly the earlier
   * elements and the added ones, earlier entries first, with no duplicate
   * introduced.
   */
  lemma {:induction false} UnionAllContents<T>(s: seq<T>, xs: seq<T>)
    ensures s <= UnionAll(s, xs)
    ensures forall y :: y in UnionAll(s, xs) <==> y in s || y in xs
    ensures NoDuplicates(s) ==> NoDuplicates(UnionAll(s, xs))
    decreases |xs|
  {
    if xs != [] {
      var s' := ArrayUnion(s, xs[0]);
      UnionAllContents(s', xs[1..]);
      if NoDuplicates(s) {
        ArrayUnionNoDuplicates(s, xs[0]);
      }
      forall y ensures y in xs <==> y == xs[0] || y in xs[1..] {
        assert xs == [xs[0]] + xs[1..];
      }
    }
  }
}
