/** The intrusive circular list under every LRU: a list head and items that carry their own links. */
module Ring {

  class Link<T> {
    var prev: Link<T>
    var next: Link<T>
    var item: T

    constructor (item: T)
      ensures prev == this && next == this && this.item == item
      ensures IsRing(this, [])
    {
      this.item := item;
      prev := this;
      next := this;
    }

    /** Makes this an empty list, whatever it was before. */
    method Init()
      modifies this`prev, this`next
      ensures IsRing(this, [])
    {
      prev := this;
      next := this;
    }

    /** Inserts this link before the list head, that is, last. Only the links of this, of the head
        and of the former last item are written. */
    method InsertTail(list: Link<T>, ghost items: seq<Link<T>>)
      requires IsRing(list, items) && this != list && this !in items
      modifies this`prev, this`next, list`prev, list.prev`next
      ensures IsRing(list, items + [this])
    {
      ghost var ys := items + [this];
      var last := list.prev;
      assert last == At(list, items, |items| - 1) by { assert Linked(list, items, |items|); }
      next := list;
      prev := last;
      last.next := this;
      list.prev := this;
      forall i | 0 <= i <= |ys| ensures Linked(list, ys, i) {
        if i < |items| { assert old(Linked(list, items, i)); }
      }
    }

    /** Takes this link out of the list that it is in; its own links are left as they were. */
    method Remove(ghost list: Link<T>, ghost items: seq<Link<T>>, ghost n: nat)
      requires IsRing(list, items) && n < |items| && items[n] == this
      modifies prev`next, next`prev
      ensures IsRing(list, Without(items, n))
    {
      ghost var ys := Without(items, n);
      assert Linked(list, items, n) && Linked(list, items, n + 1);
      var after := next;
      var before := prev;
      before.next := after;
      after.prev := before;
      forall i | 0 <= i <= |ys| ensures Linked(list, ys, i) {
        if i < n { assert old(Linked(list, items, i)); }
        if i > n { assert old(Linked(list, items, i + 1)); }
      }
    }
  }

  function Without<X>(xs: seq<X>, n: nat): (r: seq<X>)
    requires n < |xs|
    ensures |r| == |xs| - 1
    ensures forall i :: 0 <= i < n ==> r[i] == xs[i]
    ensures forall i :: n <= i < |r| ==> r[i] == xs[i + 1]
  {
    xs[..n] + xs[n + 1..]
  }

  /** The item at i; before the first and after the last one is the list head. */
  ghost function At<T>(list: Link<T>, items: seq<Link<T>>, i: int): Link<T> {
    if 0 <= i < |items| then items[i] else list
  }

  /** The neighbours i - 1 and i point to each other. */
  ghost predicate Linked<T>(list: Link<T>, items: seq<Link<T>>, i: int)
    reads list, items
  {
    At(list, items, i - 1).next == At(list, items, i) && At(list, items, i).prev == At(list, items, i - 1)
  }

  /** Following next from the head visits exactly the items in order and comes back to the head,
      and following prev does the same backwards. */
  ghost predicate IsRing<T>(list: Link<T>, items: seq<Link<T>>)
    reads list, items
  {
    && list !in items
    && (forall i, j :: 0 <= i < j < |items| ==> items[i] != items[j])
    && (forall i :: 0 <= i <= |items| ==> Linked(list, items, i))
  }

  /** The head's next link tells whether the list is empty, and what is first. */
  lemma FirstOfRing<T>(list: Link<T>, items: seq<Link<T>>)
    requires IsRing(list, items)
    ensures list.next == list <==> items == []
    ensures items != [] ==> list.next == items[0]
  {
    assert Linked(list, items, 0);
  }

  /** The links determine the items: a head is the head of one list only. */
  lemma {:induction false} RingUnique<T>(list: Link<T>, xs: seq<Link<T>>, ys: seq<Link<T>>)
    requires IsRing(list, xs) && IsRing(list, ys)
    ensures xs == ys
  {
    var n := if |xs| <= |ys| then |xs| else |ys|;
    SamePrefix(list, xs, ys, n);
    assert Linked(list, xs, n) && Linked(list, ys, n);
  }

  lemma {:induction false} SamePrefix<T>(list: Link<T>, xs: seq<Link<T>>, ys: seq<Link<T>>, n: nat)
    requires IsRing(list, xs) && IsRing(list, ys) && n <= |xs| && n <= |ys|
    ensures xs[..n] == ys[..n]
  {
    if n > 0 {
      SamePrefix(list, xs, ys, n - 1);
      assert Linked(list, xs, n - 1) && Linked(list, ys, n - 1);
      assert n >= 2 ==> xs[n - 2] == xs[..n - 1][n - 2] && ys[n - 2] == ys[..n - 1][n - 2];
    }
  }
}
