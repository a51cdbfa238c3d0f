/** Timed LRU lists: entries without repeats in the order of their last touch, first as sequences,
    then as an object that keeps a dictionary and an intrusive list in step.
 */
module TimedList {
  import opened Ring

  type Time = int

  datatype Entry<K> = Entry(key: K, atime: Time)

  // ---------- sequences of entries ----------

  ghost predicate Has<K>(es: seq<Entry<K>>, key: K) {
    exists n :: 0 <= n < |es| && es[n].key == key
  }

  ghost predicate NoRepeats<K(!new)>(es: seq<Entry<K>>) {
    forall i, j :: 0 <= i < j < |es| ==> es[i].key != es[j].key
  }

  /** Times do not decrease along the list and are not in the future. */
  ghost predicate Ascending<K(!new)>(es: seq<Entry<K>>, now: Time) {
    && (forall i, j :: 0 <= i < j < |es| ==> es[i].atime <= es[j].atime)
    && (forall i :: 0 <= i < |es| ==> es[i].atime <= now)
  }

  ghost predicate Ok<K(!new)>(es: seq<Entry<K>>, now: Time) {
    NoRepeats(es) && Ascending(es, now)
  }

  /** The list without the entry of key. */
  function Drop<K(==, !new)>(es: seq<Entry<K>>, key: K): (r: seq<Entry<K>>)
    ensures |r| <= |es|
  {
    if es == [] then []
    else if es[0].key == key then Drop(es[1..], key)
    else [es[0]] + Drop(es[1..], key)
  }

  /** touch: the entry of key goes to the tail with the current time. */
  function Touched<K(==, !new)>(es: seq<Entry<K>>, key: K, now: Time): seq<Entry<K>> {
    Drop(es, key) + [Entry(key, now)]
  }

  lemma {:induction false} DropAbsent<K(!new)>(es: seq<Entry<K>>, key: K)
    requires !Has(es, key)
    ensures Drop(es, key) == es
  {
    if es != [] {
      assert es[0].key != key;
      forall n | 0 <= n < |es[1..]| ensures es[1..][n].key != key { assert es[1..][n] == es[n + 1]; }
      DropAbsent(es[1..], key);
    }
  }

  lemma NoRepeatsTail<K(!new)>(es: seq<Entry<K>>)
    requires NoRepeats(es) && es != []
    ensures NoRepeats(es[1..]) && !Has(es[1..], es[0].key)
  {
  }

  /** Among entries without repeats, dropping a key is taking out one position. */
  lemma {:induction false} DropAt<K(!new)>(es: seq<Entry<K>>, n: nat)
    requires NoRepeats(es) && n < |es|
    ensures Drop(es, es[n].key) == Without(es, n)
  {
    NoRepeatsTail(es);
    if n == 0 {
      DropAbsent(es[1..], es[0].key);
    } else {
      DropAt(es[1..], n - 1);
      assert es[1..][..n - 1] == es[1..n] && es[1..][n..] == es[n + 1..];
      assert es[..n] == [es[0]] + es[1..n];
      assert es[0].key != es[n].key;
    }
  }

  lemma {:induction false} HasDrop<K(!new)>(es: seq<Entry<K>>, key: K, other: K)
    ensures Has(Drop(es, key), other) <==> Has(es, other) && other != key
  {
    if es != [] {
      HasDrop(es[1..], key, other);
      HasFirst(es, other);
      if es[0].key != key {
        var r := Drop(es, key);
        HasFirst(r, other);
        assert r[1..] == Drop(es[1..], key);
      }
    }
  }

  lemma HasFirst<K(!new)>(es: seq<Entry<K>>, key: K)
    requires es != []
    ensures Has(es, key) <==> es[0].key == key || Has(es[1..], key)
  {
    if Has(es, key) && es[0].key != key {
      var n :| 0 <= n < |es| && es[n].key == key;
      assert es[1..][n - 1].key == key;
    }
    if Has(es[1..], key) {
      var n :| 0 <= n < |es[1..]| && es[1..][n].key == key;
      assert es[n + 1].key == key;
    }
  }

  /** Dropping a key loses its entry and no other. */
  lemma {:induction false} DropEntry<K(!new)>(es: seq<Entry<K>>, key: K, e: Entry<K>)
    ensures e in Drop(es, key) <==> e in es && e.key != key
  {
    if es != [] { DropEntry(es[1..], key, e); }
  }

  lemma DropKeeps<K(!new)>(es: seq<Entry<K>>, key: K, now: Time)
    requires Ok(es, now)
    ensures Ok(Drop(es, key), now) && !Has(Drop(es, key), key)
    ensures |Drop(es, key)| == if Has(es, key) then |es| - 1 else |es|
  {
    HasDrop(es, key, key);
    if Has(es, key) {
      var n :| 0 <= n < |es| && es[n].key == key;
      DropAt(es, n);
    } else {
      DropAbsent(es, key);
    }
  }

  lemma TouchKeeps<K(!new)>(es: seq<Entry<K>>, key: K, now: Time)
    requires Ok(es, now)
    ensures Ok(Touched(es, key, now), now)
    ensures |Touched(es, key, now)| == if Has(es, key) then |es| else |es| + 1
  {
    DropKeeps(es, key, now);
  }

  /** Only the head has to be looked at: some entry is due exactly if the first one is. */
  lemma HeadDecides<K(!new)>(es: seq<Entry<K>>, delay: nat, now: Time)
    requires Ascending(es, now)
    ensures (exists n :: 0 <= n < |es| && es[n].atime + delay < now) <==> es != [] && es[0].atime + delay < now
  {
  }

  lemma WithoutElements<X>(xs: seq<X>, n: nat)
    requires n < |xs| && forall i, j :: 0 <= i < j < |xs| ==> xs[i] != xs[j]
    ensures forall x: X :: x in Without(xs, n) <==> x in xs && x != xs[n]
  {
    forall x | x in xs && x != xs[n] ensures x in Without(xs, n) {
      var i :| 0 <= i < |xs| && xs[i] == x;
      assert x == if i < n then Without(xs, n)[i] else Without(xs, n)[i - 1];
    }
  }

  // ---------- the dictionary and the list ----------

  ghost function KeySet<K>(es: seq<Entry<K>>): set<K> {
    if es == [] then {} else {es[0].key} + KeySet(es[1..])
  }

  lemma {:induction false} KeySetHas<K(!new)>(es: seq<Entry<K>>, key: K)
    ensures key in KeySet(es) <==> Has(es, key)
  {
    if es != [] {
      KeySetHas(es[1..], key);
      if Has(es, key) && es[0].key != key {
        var n :| 0 <= n < |es| && es[n].key == key;
        assert es[1..][n - 1].key == key;
      }
    }
  }

  lemma {:induction false} KeySetSize<K(!new)>(es: seq<Entry<K>>)
    requires NoRepeats(es)
    ensures |KeySet(es)| == |es|
  {
    if es != [] {
      NoRepeatsTail(es);
      KeySetSize(es[1..]);
      KeySetHas(es[1..], es[0].key);
    }
  }

  /** The dictionary maps exactly the keys of the entries, which do not repeat, to their links. */
  ghost predicate Indexed<K(!new), L>(index: map<K, L>, links: seq<L>, es: seq<Entry<K>>) {
    && |links| == |es| && NoRepeats(es)
    && (forall n :: 0 <= n < |es| ==> es[n].key in index && index[es[n].key] == links[n])
    && index.Keys == KeySet(es)
  }

  /** The dictionary and the list without a key: one position is taken out of both. */
  lemma IndexedWithout<K(!new), L>(index: map<K, L>, links: seq<L>, es: seq<Entry<K>>, key: K) returns (n: nat)
    requires Indexed(index, links, es) && key in index
    ensures n < |es| && es[n].key == key && links[n] == index[key]
    ensures Indexed(index - {key}, Without(links, n), Without(es, n))
    ensures Without(es, n) == Drop(es, key)
  {
    KeySetHas(es, key);
    n :| 0 <= n < |es| && es[n].key == key;
    DropAt(es, n);
    var es' := Without(es, n);
    forall k ensures k in KeySet(es') <==> k in KeySet(es) && k != key {
      HasDrop(es, key, k);
      KeySetHas(es, k);
      KeySetHas(es', k);
    }
    assert (index - {key}).Keys == KeySet(es');
  }

  lemma IndexedAppend<K(!new), L>(index: map<K, L>, links: seq<L>, es: seq<Entry<K>>, link: L, e: Entry<K>)
    requires Indexed(index, links, es) && e.key !in index
    ensures Indexed(index[e.key := link], links + [link], es + [e])
  {
    var es' := es + [e];
    forall k ensures k in KeySet(es') <==> k in KeySet(es) || k == e.key {
      KeySetHas(es, k);
      KeySetHas(es', k);
      assert es'[|es|] == e;
      if Has(es, k) {
        var n :| 0 <= n < |es| && es[n].key == k;
        assert es'[n] == es[n];
      }
    }
    assert index[e.key := link].Keys == KeySet(es');
    KeySetHas(es, e.key);
  }

  /** The links carry the entries. */
  ghost predicate Carry<T>(links: seq<Link<T>>, es: seq<T>)
    reads links`item
  {
    |links| == |es| && forall n :: 0 <= n < |es| ==> links[n].item == es[n]
  }

  lemma CarryWithout<T>(links: seq<Link<T>>, es: seq<T>, n: nat)
    requires Carry(links, es) && n < |es|
    ensures Carry(Without(links, n), Without(es, n))
  {
  }

  /** What taking out the link at n may write is part of the list. */
  lemma NeighboursOf<T>(list: Link<T>, links: seq<Link<T>>, n: nat)
    requires IsRing(list, links) && n < |links|
    ensures links[n] != list && {links[n].prev, links[n].next} <= {list} + (set l | l in links)
    ensures (set l | l in Without(links, n)) == (set l | l in links) - {links[n]}
  {
    WithoutElements(links, n);
    assert Linked(list, links, n) && Linked(list, links, n + 1);
  }

  class KeyedList<K(==, !new)> {
    var index: map<K, Link<Entry<K>>>
    const list: Link<Entry<K>>
    ghost var links: seq<Link<Entry<K>>>
    ghost var entries: seq<Entry<K>>

    /** The list head carries an entry that is never looked at. */
    constructor (unused: K)
      ensures Valid() && entries == [] && fresh(Repr())
    {
      index := map[];
      list := new Link(Entry(unused, 0));
      links, entries := [], [];
    }

    ghost function Repr(): set<object>
      reads this
    {
      {this, list} + (set l | l in links)
    }

    ghost predicate Valid()
      reads this, list, links
    {
      IsRing(list, links) && Indexed(index, links, entries) && Carry(links, entries)
    }

    lemma IndexHas(key: K)
      requires Valid()
      ensures key in index <==> Has(entries, key)
    {
      KeySetHas(entries, key);
    }

    /** The dictionary leads to the one entry of a key. */
    lemma IndexedEntry(key: K)
      requires Valid() && key in index
      ensures exists n :: 0 <= n < |entries| && entries[n].key == key && index[key].item == entries[n]
    {
      KeySetHas(entries, key);
      var n :| 0 <= n < |entries| && entries[n].key == key;
    }

    lemma IndexSize()
      requires Valid()
      ensures |index| == |entries|
    {
      KeySetSize(entries);
      assert |index| == |index.Keys|;
    }

    /** Takes the entry of a key out of the dictionary and the list; the caller gets its link. */
    method Take(key: K) returns (link: Link<Entry<K>>)
      requires Valid() && key in index
      modifies Repr()
      ensures Valid() && link == old(index[key]) && link != list
      ensures link in old(Repr()) && Repr() == old(Repr()) - {link}
      ensures entries == Drop(old(entries), key)
      ensures index == old(index) - {key}
    {
      link := index[key];
      ghost var n := IndexedWithout(index, links, entries, key);
      NeighboursOf(list, links, n);
      CarryWithout(links, entries, n);
      link.Remove(list, links, n);
      index := index - {key};
      links, entries := Without(links, n), Without(entries, n);
    }

    /** Puts a link last, under its key, with the given time. */
    method Append(link: Link<Entry<K>>, key: K, now: Time)
      requires Valid() && link !in Repr() && key !in index
      modifies Repr(), link
      ensures Valid() && Repr() == old(Repr()) + {link}
      ensures entries == old(entries) + [Entry(key, now)]
      ensures index == old(index)[key := link]
    {
      ghost var e, ls := Entry(key, now), links;
      link.item := Entry(key, now);
      assert Linked(list, links, |links|);
      IndexedAppend(index, links, entries, link, e);
      link.InsertTail(list, links);
      index := index[key := link];
      links, entries := links + [link], entries + [e];
      assert forall l :: l in links <==> l in ls || l == link;
    }

    /** The head of the list, if there is one. */
    method First() returns (empty: bool, head: Link<Entry<K>>)
      requires Valid()
      ensures empty <==> entries == []
      ensures !empty ==> head.item == entries[0] && head.item.key in index && index[head.item.key] == head
    {
      FirstOfRing(list, links);
      head := list.next;
      empty := head == list;
    }

    /** Forgets every entry. */
    method Clear()
      requires Valid()
      modifies this, list
      ensures Valid() && entries == [] && index == map[] && Repr() <= old(Repr())
    {
      index := map[];
      links, entries := [], [];
      list.Init();
    }
  }
}
