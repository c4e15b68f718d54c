/**
 * What the emitted `SetPortableClassItems` and `GetPortableClassItems`
 * methods do at run time.  The receiver is a list type whose `Items` field
 * holds values of the element type `E`; callers see them as values of the
 * interface `resource.PortableClass`, here the type parameter `C`.  The
 * checked type assertion `c.(*element)` followed by the dereference
 * `*actual` is the function `narrow`, which tells the three outcomes apart:
 * a pointer to an element, a nil `*element` (the assertion succeeds and the
 * dereference panics), or a value of another dynamic type.
 */
module PortableItems {

  /** The outcome of `actual, ok := c.(*element)` followed by `*actual`. */
  datatype Assertion<E> =
    | Points(value: E)  // ok, and `*actual` is `value`
    | NilPointer        // ok, but `actual` is nil: `*actual` panics
    | OtherType         // not ok: the input is skipped

  /** `resource.PortableClass(&recv.Items[index])`: a view of one element, not a copy. */
  datatype ItemAddress = ItemAddress(index: nat)

  /** The input narrows to an element that can be dereferenced. */
  predicate Narrows<C, E>(narrow: C -> Assertion<E>, c: C)
  {
    narrow(c).Points?
  }

  /** The inputs that narrow to the element type, narrowed, in input order. */
  function Narrowed<C, E>(i: seq<C>, narrow: C -> Assertion<E>): (r: seq<E>)
    ensures |r| <= |i|
  {
    if i == [] then
      []
    else
      var init := Narrowed(i[..|i| - 1], narrow);
      match narrow(i[|i| - 1])
      case Points(e) => init + [e]
      case _ => init
  }

  /** The positions of the inputs that narrow, ascending. */
  ghost function Survivors<C, E>(i: seq<C>, narrow: C -> Assertion<E>): (idx: seq<nat>)
    ensures forall m :: 0 <= m < |idx| ==> idx[m] < |i| && Narrows(narrow, i[idx[m]])
    ensures forall m, n :: 0 <= m < n < |idx| ==> idx[m] < idx[n]
    ensures forall k :: 0 <= k < |i| && Narrows(narrow, i[k]) ==> k in idx
  {
    if i == [] then
      []
    else
      var init := Survivors(i[..|i| - 1], narrow);
      assert forall k :: 0 <= k < |i| - 1 ==> i[..|i| - 1][k] == i[k];
      if Narrows(narrow, i[|i| - 1]) then init + [|i| - 1] else init
  }

  /**
   * `SetPortableClassItems` keeps exactly the inputs that narrow, and keeps
   * them in the order they were given: the m-th kept element is the
   * narrowed m-th surviving input.
   */
  lemma {:induction false} NarrowedKeepsSurvivorsInOrder<C, E>(i: seq<C>, narrow: C -> Assertion<E>)
    ensures |Narrowed(i, narrow)| == |Survivors(i, narrow)|
    ensures forall m :: 0 <= m < |Narrowed(i, narrow)| ==>
      narrow(i[Survivors(i, narrow)[m]]) == Points(Narrowed(i, narrow)[m])
  {
    if i != [] {
      var front := i[..|i| - 1];
      NarrowedKeepsSurvivorsInOrder(front, narrow);
      assert forall k :: 0 <= k < |front| ==> front[k] == i[k];
    }
  }

  /** An element is kept exactly when some input narrows to it. */
  lemma {:induction false} NarrowedMembers<C, E>(i: seq<C>, narrow: C -> Assertion<E>, e: E)
    ensures e in Narrowed(i, narrow) <==> exists k :: 0 <= k < |i| && narrow(i[k]) == Points(e)
  {
    if i != [] {
      var front := i[..|i| - 1];
      NarrowedMembers(front, narrow, e);
      assert forall k :: 0 <= k < |front| ==> front[k] == i[k];
      if e in Narrowed(i, narrow) && !(e in Narrowed(front, narrow)) {
        assert narrow(i[|i| - 1]) == Points(e);
      }
      if exists k :: 0 <= k < |i| && narrow(i[k]) == Points(e) {
        var k :| 0 <= k < |i| && narrow(i[k]) == Points(e);
        if k < |front| {
          assert narrow(front[k]) == Points(e);
        }
      }
    }
  }

  /** When every input narrows, nothing is dropped and the order is kept. */
  lemma {:induction false} NarrowedAllNarrow<C, E>(i: seq<C>, narrow: C -> Assertion<E>)
    requires forall k :: 0 <= k < |i| ==> Narrows(narrow, i[k])
    ensures |Narrowed(i, narrow)| == |i|
    ensures forall k :: 0 <= k < |i| ==> narrow(i[k]) == Points(Narrowed(i, narrow)[k])
  {
    if i != [] {
      var front := i[..|i| - 1];
      assert forall k :: 0 <= k < |front| ==> front[k] == i[k];
      NarrowedAllNarrow(front, narrow);
    }
  }

  /** Narrowing a concatenation narrows each part. */
  lemma {:induction false} NarrowedConcat<C, E>(a: seq<C>, b: seq<C>, narrow: C -> Assertion<E>)
    ensures Narrowed(a + b, narrow) == Narrowed(a, narrow) + Narrowed(b, narrow)
    decreases |b|
  {
    if b == [] {
      assert a + b == a;
    } else {
      var front := b[..|b| - 1];
      assert (a + b)[..|a + b| - 1] == a + front;
      NarrowedConcat(a, front, narrow);
    }
  }

  /**
   * Three inputs of which the middle one does not narrow leave two
   * elements, in their original order.
   */
  lemma DropsTheOneThatFails<C, E>(narrow: C -> Assertion<E>, a: C, b: C, c: C, x: E, z: E)
    requires narrow(a) == Points(x) && narrow(b) == OtherType && narrow(c) == Points(z)
    ensures Narrowed([a, b, c], narrow) == [x, z]
  {
    assert [a][..0] == [];
    assert Narrowed([a], narrow) == [x];
    assert [a, b][..1] == [a];
    assert Narrowed([a, b], narrow) == [x];
    assert [a, b, c][..2] == [a, b];
  }

  /** The receiver of the emitted methods: a list type with its `Items`. */
  class ItemList<E> {
    var items: seq<E>

    /** The element an address designates. */
    function Deref(a: ItemAddress): E
      reads this
      requires a.index < |items|
    {
      items[a.index]
    }

    /**
     * The emitted `SetPortableClassItems(i)`: `Items` is replaced by a
     * fresh list to which every input that narrows is appended; an input
     * of another type is silently dropped.  A nil `*element` makes the
     * dereference panic: `panicked` reports it, and `Items` then holds
     * what was appended before the first such input.
     */
    method SetPortableClassItems<C>(i: seq<C>, narrow: C -> Assertion<E>) returns (panicked: bool)
      modifies this
      ensures panicked <==> exists j :: 0 <= j < |i| && narrow(i[j]).NilPointer?
      ensures !panicked ==> items == Narrowed(i, narrow)
      ensures panicked ==>
        exists j :: && 0 <= j < |i| && narrow(i[j]).NilPointer?
                    && (forall k :: 0 <= k < j ==> !narrow(i[k]).NilPointer?)
                    && items == Narrowed(i[..j], narrow)
    {
      items := [];
      for j := 0 to |i|
        invariant items == Narrowed(i[..j], narrow)
        invariant forall k :: 0 <= k < j ==> !narrow(i[k]).NilPointer?
      {
        assert i[..j + 1][..j] == i[..j];
        match narrow(i[j])
        case Points(actual) =>
          items := items + [actual];
        case NilPointer =>
          return true;
        case OtherType =>
      }
      assert i[..|i|] == i;
      return false;
    }

    /**
     * The emitted `GetPortableClassItems()`: one address per element of
     * `Items`, position k designating `Items[k]`.
     */
    method GetPortableClassItems() returns (r: seq<ItemAddress>)
      ensures |r| == |items|
      ensures forall k :: 0 <= k < |r| ==> r[k].index == k && Deref(r[k]) == items[k]
    {
      var addresses := new ItemAddress[|items|];
      for k := 0 to |items|
        invariant forall m :: 0 <= m < k ==> addresses[m] == ItemAddress(m)
      {
        addresses[k] := ItemAddress(k);
      }
      r := addresses[..];
    }
  }
}
