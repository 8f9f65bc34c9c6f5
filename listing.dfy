/**
 * The fan-out read shared by the two listing handlers: for every id of an
 * array field, look the document up and push `{ id, ...data }`; a lookup
 * that finds nothing throws inside its own callback, is caught and logged,
 * and contributes nothing.
 */
module Listing {
  import opened Common

  /** The entries the fan-out yields for `ids`, in array order. */
  function Resolve<D>(ids: seq<Id>, docs: map<Id, D>): (r: seq<Entry<D>>)
    ensures |r| <= |ids|
    ensures forall e | e in r :: e.id in ids && e.id in docs && e.data == docs[e.id]
    decreases |ids|
  {
    if ids == [] then []
    else
      var prefix := Resolve(ids[..|ids| - 1], docs);
      var last := ids[|ids| - 1];
      if last in docs then prefix + [Entry(last, docs[last])] else prefix
  }

  /**
   * Every stored document named in `ids` is listed once per occurrence of its
   * id, and a dangling id is listed not at all.
   */
  lemma {:induction false} ResolveMultiplicity<D>(ids: seq<Id>, docs: map<Id, D>, x: Id)
    ensures x in docs ==> multiset(Resolve(ids, docs))[Entry(x, docs[x])] == multiset(ids)[x]
    ensures forall e | e in Resolve(ids, docs) :: e.id != x || x in docs
    decreases |ids|
  {
    if ids != [] {
      var init := ids[..|ids| - 1];
      var last := ids[|ids| - 1];
      ResolveMultiplicity(init, docs, x);
      assert ids == init + [last];
      assert multiset(ids) == multiset(init) + multiset{last};
      if last in docs {
        assert multiset(Resolve(ids, docs)) == multiset(Resolve(init, docs)) + multiset{Entry(last, docs[last])};
      }
    }
  }

  /** With no dangling id, nothing is dropped: one entry per id. */
  lemma {:induction false} ResolveNothingDropped<D>(ids: seq<Id>, docs: map<Id, D>)
    requires forall x | x in ids :: x in docs
    ensures |Resolve(ids, docs)| == |ids|
    decreases |ids|
  {
    if ids != [] {
      ResolveNothingDropped(ids[..|ids| - 1], docs);
      assert ids[|ids| - 1] in ids;
    }
  }

  /** The per-id loop: one lookup per array element, pushing what is found. */
  method FanOut<D>(ids: seq<Id>, docs: map<Id, D>) returns (found: seq<Entry<D>>)
    ensures found == Resolve(ids, docs)
  {
    found := [];
    var i := 0;
    while i < |ids|
      invariant 0 <= i <= |ids|
      invariant found == Resolve(ids[..i], docs)
    {
      var v := ids[i];
      assert ids[..i + 1][..i] == ids[..i];
      if v in docs {
        found := found + [Entry(v, docs[v])];
      }
      i := i + 1;
    }
    assert ids[..|ids|] == ids;
  }
}
