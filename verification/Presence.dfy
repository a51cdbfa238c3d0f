/** The presence caches: bounded LRU sets of path keys whose members expire. The cache object is
    proved to follow a function on its entries, and that function to follow the log of events.
 */
module Presence {
  import opened Paths
  import opened Ring
  import opened TimedList

  type Entries = seq<Entry<Path>>

  // ---------- the operations on entries ----------

  /** addPath: a known key moves to the tail, a new one may push out the head. */
  ghost function Added(es: Entries, key: Path, max: int, now: Time): Entries {
    Touched(if !Has(es, key) && max <= |es| && es != [] then es[1..] else es, key, now)
  }

  ghost predicate Expired(es: Entries, key: Path, timeout: nat, now: Time) {
    exists n :: 0 <= n < |es| && es[n].key == key && es[n].atime + timeout < now
  }

  /** What hasPath answers. */
  ghost predicate Hit(es: Entries, key: Path, timeout: nat, now: Time) {
    Has(es, key) && !Expired(es, key, timeout, now)
  }

  /** hasPath drops an expired entry. */
  ghost function Asked(es: Entries, key: Path, timeout: nat, now: Time): Entries {
    if Expired(es, key, timeout, now) then Drop(es, key) else es
  }

  // ---------- the object ----------

  class PathPresenceCache {
    const pathTimeout: nat
    const pathMaxCount: int
    const pres: KeyedList<Path>

    constructor (pathTimeout: nat, pathMaxCount: int)
      ensures this.pathTimeout == pathTimeout && this.pathMaxCount == pathMaxCount
      ensures pres.Valid() && pres.entries == [] && fresh(pres.Repr())
    {
      this.pathTimeout, this.pathMaxCount := pathTimeout, pathMaxCount;
      pres := new KeyedList([]);
    }

    method HasPath(key: Path, now: Time) returns (ok: bool)
      requires pres.Valid()
      modifies pres.Repr()
      ensures pres.Valid() && pres.Repr() <= old(pres.Repr())
      ensures ok == Hit(old(pres.entries), key, pathTimeout, now)
      ensures if ok then pres.entries == old(pres.entries) && Has(pres.entries, key) else !Has(pres.entries, key)
      ensures pres.entries == Asked(old(pres.entries), key, pathTimeout, now)
    {
      ok := key in pres.index;
      pres.IndexHas(key);
      if ok {
        pres.IndexedEntry(key);
        if pres.index[key].item.atime + pathTimeout < now {
          HasDrop(pres.entries, key, key);
          var _ := pres.Take(key);
          ok := false;
        }
      }
    }

    method AddPath(key: Path, now: Time)
      requires pres.Valid()
      modifies pres.Repr()
      ensures pres.Valid() && fresh(pres.Repr() - old(pres.Repr()))
      ensures pres.entries == Added(old(pres.entries), key, pathMaxCount, now)
    {
      var link: Link<Entry<Path>>;
      pres.IndexHas(key);
      if key in pres.index {
        link := pres.Take(key);
      } else {
        MakeRoom(key);
        link := new Link(Entry(key, now));
      }
      pres.Append(link, key, now);
    }

    /** A full cache loses its head before a new key comes in. */
    method MakeRoom(key: Path)
      requires pres.Valid() && key !in pres.index
      modifies pres.Repr()
      ensures pres.Valid() && pres.Repr() <= old(pres.Repr()) && key !in pres.index
      ensures var es := old(pres.entries);
              pres.entries == Drop(if pathMaxCount <= |es| && es != [] then es[1..] else es, key)
    {
      pres.IndexSize();
      if pathMaxCount <= |pres.index| {
        var empty, head := pres.First();
        if !empty {
          DropAt(pres.entries, 0);
          var _ := pres.Take(head.item.key);
          assert pres.entries == old(pres.entries)[1..];
        }
      }
      pres.IndexHas(key);
      DropAbsent(pres.entries, key);
    }

    method RemovePath(key: Path)
      requires pres.Valid()
      modifies pres.Repr()
      ensures pres.Valid() && pres.Repr() <= old(pres.Repr())
      ensures pres.entries == Drop(old(pres.entries), key)
    {
      if key in pres.index {
        var _ := pres.Take(key);
      } else {
        pres.IndexHas(key);
        DropAbsent(pres.entries, key);
      }
    }

    method RemoveAllPath()
      requires pres.Valid()
      modifies pres.Repr()
      ensures pres.Valid() && pres.Repr() <= old(pres.Repr())
      ensures pres.entries == []
    {
      pres.Clear();
    }
  }
}
