/** Lists of entries keyed by an id: replacing and removing by id, as the pages do with
    `map` and `filter`. */
module Lists {

  /** `list.map(x => x.id === id ? updated : x)`. */
  function ReplaceById<T>(xs: seq<T>, idOf: T -> string, id: string, updated: T): (r: seq<T>)
    ensures |r| == |xs|
    ensures forall i :: 0 <= i < |xs| && idOf(xs[i]) == id ==> r[i] == updated
    ensures forall i :: 0 <= i < |xs| && idOf(xs[i]) != id ==> r[i] == xs[i]
  {
    if xs == [] then []
    else
      var last := xs[|xs| - 1];
      ReplaceById(xs[..|xs| - 1], idOf, id, updated) + [if idOf(last) == id then updated else last]
  }

  /** `list.filter(x => x.id !== id)`. */
  function RemoveById<T>(xs: seq<T>, idOf: T -> string, id: string): (r: seq<T>)
    ensures |r| <= |xs|
    ensures forall i :: 0 <= i < |r| ==> idOf(r[i]) != id
  {
    if xs == [] then []
    else
      var last := xs[|xs| - 1];
      RemoveById(xs[..|xs| - 1], idOf, id) + (if idOf(last) != id then [last] else [])
  }

  /** No entry of `xs` carries `id`. */
  predicate Fresh<T>(xs: seq<T>, idOf: T -> string, id: string) {
    forall i :: 0 <= i < |xs| ==> idOf(xs[i]) != id
  }

  /** Replacing twice with the same entry is replacing once: after the first pass every
      entry that carried the id is the new entry or no longer carries the id. */
  lemma ReplaceIdempotent<T>(xs: seq<T>, idOf: T -> string, id: string, updated: T)
    ensures ReplaceById(ReplaceById(xs, idOf, id, updated), idOf, id, updated)
         == ReplaceById(xs, idOf, id, updated)
  {
    var once := ReplaceById(xs, idOf, id, updated);
    var twice := ReplaceById(once, idOf, id, updated);
    assert forall i :: 0 <= i < |xs| ==> twice[i] == once[i] by {
      forall i | 0 <= i < |xs|
        ensures twice[i] == once[i]
      {
        if idOf(xs[i]) == id {
          assert once[i] == updated;
        } else {
          assert once[i] == xs[i];
        }
      }
    }
  }

  /** An id that no entry carries changes nothing. */
  lemma ReplaceFresh<T>(xs: seq<T>, idOf: T -> string, id: string, updated: T)
    requires Fresh(xs, idOf, id)
    ensures ReplaceById(xs, idOf, id, updated) == xs
  {
  }

  /** Removing keeps the order: removing from a concatenation removes from each part. */
  lemma {:induction false} RemoveAppend<T>(xs: seq<T>, ys: seq<T>, idOf: T -> string, id: string)
    ensures RemoveById(xs + ys, idOf, id) == RemoveById(xs, idOf, id) + RemoveById(ys, idOf, id)
    decreases |ys|
  {
    if ys == [] {
      assert xs + ys == xs;
    } else {
      var init := ys[..|ys| - 1];
      var last := ys[|ys| - 1];
      RemoveAppend(xs, init, idOf, id);
      assert (xs + ys)[..|xs + ys| - 1] == xs + init;
      assert (xs + ys)[|xs + ys| - 1] == last;
      var tail := if idOf(last) != id then [last] else [];
      assert RemoveById(xs + ys, idOf, id) == RemoveById(xs + init, idOf, id) + tail;
      assert RemoveById(ys, idOf, id) == RemoveById(init, idOf, id) + tail;
    }
  }

  /** Removing drops exactly the entries that carry the id: an entry survives iff it was there
      and carries another id. */
  lemma {:induction false} RemoveMembership<T>(xs: seq<T>, idOf: T -> string, id: string, x: T)
    ensures x in RemoveById(xs, idOf, id) <==> x in xs && idOf(x) != id
  {
    if xs != [] {
      var init := xs[..|xs| - 1];
      var last := xs[|xs| - 1];
      RemoveMembership(init, idOf, id, x);
      assert xs == init + [last];
      if idOf(last) != id {
        assert RemoveById(xs, idOf, id) == RemoveById(init, idOf, id) + [last];
      } else {
        assert RemoveById(xs, idOf, id) == RemoveById(init, idOf, id);
      }
    }
  }

  /** An id that no entry carries removes nothing. */
  lemma {:induction false} RemoveFresh<T>(xs: seq<T>, idOf: T -> string, id: string)
    requires Fresh(xs, idOf, id)
    ensures RemoveById(xs, idOf, id) == xs
  {
    if xs != [] {
      var init := xs[..|xs| - 1];
      RemoveFresh(init, idOf, id);
      assert xs == init + [xs[|xs| - 1]];
    }
  }

  /** Removing twice is removing once. */
  lemma RemoveIdempotent<T>(xs: seq<T>, idOf: T -> string, id: string)
    ensures RemoveById(RemoveById(xs, idOf, id), idOf, id) == RemoveById(xs, idOf, id)
  {
    RemoveFresh(RemoveById(xs, idOf, id), idOf, id);
  }

  /** Appending an entry with a fresh id and then removing that id gives the list back. */
  lemma RemoveUndoesAppend<T>(xs: seq<T>, idOf: T -> string, x: T)
    requires Fresh(xs, idOf, idOf(x))
    ensures RemoveById(xs + [x], idOf, idOf(x)) == xs
  {
    assert (xs + [x])[..|xs|] == xs;
    RemoveFresh(xs, idOf, idOf(x));
  }

  /** No element occurs twice. */
  predicate Distinct<T(==)>(xs: seq<T>) {
    forall i, j :: 0 <= i < j < |xs| ==> xs[i] != xs[j]
  }

  /** Removing keeps a list free of repetitions. */
  lemma {:induction false} RemoveDistinct<T>(xs: seq<T>, idOf: T -> string, id: string)
    requires Distinct(xs)
    ensures Distinct(RemoveById(xs, idOf, id))
  {
    if xs != [] {
      var init, last := xs[..|xs| - 1], xs[|xs| - 1];
      assert Distinct(init);
      RemoveDistinct(init, idOf, id);
      if idOf(last) != id {
        RemoveMembership(init, idOf, id, last);
        assert last !in init;
      }
    }
  }
}
