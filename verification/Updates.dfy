/** What the write buffer hands to the database: keyed updates, and how a store changes under them. */
module Updates {
  const STARTD_AD: nat := 1
  const STARTD_PVT_AD: nat := 2

  /** One buffered upsert: an ad's wire text, or a startd's public text with its private one. */
  datatype PendingUpdate = PendingUpdate(adType: nat, text: string, pvtText: string, pvt: bool)

  /** The ad an update targets; its type names the table. */
  datatype Key = Key(adType: nat, name: string)

  /** One update as it was enqueued. */
  datatype Entry = Entry(key: Key, update: PendingUpdate)

  type Table = map<Key, PendingUpdate>

  ghost predicate Holds(store: Table, e: Entry) {
    e.key in store && store[e.key] == e.update
  }

  ghost predicate Distinct(items: seq<Entry>) {
    forall i, j :: 0 <= i < j < |items| ==> items[i].key != items[j].key
  }

  /** Every entry of the store is as it was or one of the items, and none of the rejected ones. */
  ghost predicate Wrote(was: Table, now: Table, items: seq<Entry>, rejects: PendingUpdate -> bool) {
    && (forall k :: k in was ==> k in now)
    && forall k :: k in now ==> (k in was && now[k] == was[k]) || (Entry(k, now[k]) in items && !rejects(now[k]))
  }

  lemma WroteNothing(store: Table, items: seq<Entry>, rejects: PendingUpdate -> bool)
    ensures Wrote(store, store, items, rejects)
  {
  }

  lemma WroteAgain(start: Table, was: Table, now: Table, items: seq<Entry>, more: seq<Entry>,
                   rejects: PendingUpdate -> bool)
    requires Wrote(start, was, items, rejects) && Wrote(was, now, more, rejects)
    requires forall e :: e in more ==> e in items
    ensures Wrote(start, now, items, rejects)
  {
  }

  /** One update for each key. */
  ghost predicate Agree(items: seq<Entry>) {
    forall e, f :: e in items && f in items && e.key == f.key ==> e == f
  }

  lemma DistinctAgree(items: seq<Entry>)
    requires Distinct(items)
    ensures Agree(items)
  {
  }

  /** Writing items that agree does not overwrite any of them with another. */
  lemma StillHolds(was: Table, now: Table, items: seq<Entry>, e: Entry, rejects: PendingUpdate -> bool)
    requires Agree(items) && e in items && Holds(was, e) && Wrote(was, now, items, rejects)
    ensures Holds(now, e)
  {
  }
}
