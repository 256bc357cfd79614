/** The write buffer in front of a batching backend: updates collapse by ad until a flush writes them out. Other
    producers may enqueue while a flush is applying its batch; flushes do not overlap one another. */
module WriteBuffer {
  import opened Options
  import opened Updates
  import opened WritePool
  import opened RpcBackend
  import CommitUnits

  /** What direct writes, applied in order, would have left under a key. */
  ghost function Latest(log: seq<Entry>, k: Key): Option<PendingUpdate> {
    if |log| == 0 then None
    else if log[|log| - 1].key == k then Some(log[|log| - 1].update)
    else Latest(log[..|log| - 1], k)
  }

  lemma LatestAppend(log: seq<Entry>, e: Entry)
    ensures forall k :: Latest(log + [e], k) == if k == e.key then Some(e.update) else Latest(log, k)
  {
    assert (log + [e])[..|log|] == log;
  }

  /** Where each key's newest update is: in the buffer, in the batch being written, or in the store, unless it is
      lost, and then there is a verdict on it. */
  ghost predicate Accounted(log: seq<Entry>, buf: Table, batch: Table, store: Table, lost: set<Key>,
                            verdicts: seq<Verdict>)
  {
    && (forall k :: k in buf ==> Latest(log, k) == Some(buf[k]))
    && (forall k :: k in batch && k !in buf ==> Latest(log, k) == Some(batch[k]))
    && (forall k :: Latest(log, k).Some? && k !in buf ==>
          || k in lost
          || k in batch
          || (k in store && Latest(log, k) == Some(store[k])))
    && forall k :: k in lost ==> Latest(log, k).Some? && Judged(verdicts, Entry(k, Latest(log, k).value))
  }

  class BufferedBackend {
    const hashKey: (nat, string) -> Option<string> // the hash key of an ad's text
    const inline: bool                             // no background writer: flush when full
    const maxBuf: nat
    const hardCap: nat
    const db: Database

    var buf: Table
    var signalled: bool

    ghost var log: seq<Entry>     // everything ever enqueued
    ghost var lost: set<Key>      // keys whose newest update the database did not take

    constructor (hashKey: (nat, string) -> Option<string>, inline: bool, maxBuf: nat, db: Database)
      requires db.Valid()
      ensures Inv() && buf == map[] && this.db == db && log == [] && lost == {}
    {
      this.hashKey, this.inline, this.db := hashKey, inline, db;
      this.maxBuf := if maxBuf == 0 then 2048 else maxBuf;
      this.hardCap := 4 * if maxBuf == 0 then 2048 else maxBuf;
      this.buf, signalled := map[], false;
      log, lost := [], {};
    }

    /** The buffer and the store together hold what direct writes would have stored, verdicts aside. */
    ghost predicate Inv()
      reads this, db
    {
      db.Valid() && Accounted(log, buf, map[], db.store, lost, db.verdicts)
    }

    function DedupKey(p: PendingUpdate): Option<Key> {
      var t := if p.pvt then STARTD_AD else p.adType;
      var k := hashKey(t, p.text);
      if k.None? then None else Some(Key(if p.pvt then STARTD_PVT_AD else p.adType, k.value))
    }

    /** Put one update into the buffer. */
    method Put(k: Key, p: PendingUpdate, ghost batch: Table)
      requires Accounted(log, buf, batch, db.store, lost, db.verdicts)
      modifies this`buf, this`log, this`lost
      ensures buf == old(buf)[k := p] && log == old(log) + [Entry(k, p)] && lost == old(lost) - {k}
      ensures Accounted(log, buf, batch, db.store, lost, db.verdicts)
    {
      hide Latest;
      LatestAppend(log, Entry(k, p));
      buf, log, lost := buf[k := p], log + [Entry(k, p)], lost - {k};
    }

    /** Other producers enqueue while a batch is being written. */
    method OthersEnqueue(ghost batch: Table)
      requires Accounted(log, buf, batch, db.store, lost, db.verdicts)
      modifies this`buf, this`log, this`lost
      ensures Accounted(log, buf, batch, db.store, lost, db.verdicts)
      ensures old(log) <= log && Grew(old(log), log, old(buf), buf) && lost <= old(lost)
    {
      hide Accounted, Grew;
      GrewNone(log, buf);
      var others: seq<PendingUpdate> := *;
      for i := 0 to |others|
        invariant Accounted(log, buf, batch, db.store, lost, db.verdicts)
        invariant old(log) <= log && Grew(old(log), log, old(buf), buf) && lost <= old(lost)
      {
        var k := DedupKey(others[i]);
        if k.Some? {
          GrewBy(old(log), log, old(buf), buf, Entry(k.value, others[i]));
          Put(k.value, others[i], batch);
        }
      }
    }

    /** Put updates back, except where a newer one has arrived. */
    method Requeue(items: seq<Entry>)
      requires Distinct(items) && Accounted(log, buf, Zip(items), db.store, lost, db.verdicts)
      modifies this`buf
      ensures Accounted(log, buf, map[], db.store, lost, db.verdicts) && Requeued(old(buf), buf, items)
    {
      hide Accounted, Zip;
      for i := 0 to |items|
        invariant Requeued(old(buf), buf, items[..i])
      {
        RequeueOne(old(buf), buf, items, i);
        if items[i].key !in buf {
          buf := buf[items[i].key := items[i].update];
        }
      }
      assert items[..|items|] == items;
      PutBack(log, old(buf), buf, items, db.store, lost, db.verdicts);
    }

    /** Take everything out of the buffer, in no particular order. */
    method Drain() returns (items: seq<Entry>)
      requires Inv()
      modifies this`buf
      ensures Distinct(items) && Zip(items) == old(buf) && |items| == |old(buf)|
      ensures buf == map[] && Accounted(log, buf, old(buf), db.store, lost, db.verdicts)
    {
      hide Latest, Accounted, Zip;
      items := [];
      var names := buf.Keys;
      while names != {}
        invariant Distinct(items) && names <= buf.Keys && |items| + |names| == |buf|
        invariant forall k :: k in buf <==> k in names || exists i :: 0 <= i < |items| && items[i].key == k
        invariant forall i :: 0 <= i < |items| ==> items[i].key !in names && Holds(buf, items[i])
        decreases |names|
      {
        var k :| k in names;
        ghost var was := items;
        items, names := items + [Entry(k, buf[k])], names - {k};
        assert items[|was|].key == k;
        assert forall i :: 0 <= i < |was| ==> items[i] == was[i];
      }
      ZipIs(items, buf);
      SwapOut(log, buf, db.store, lost, db.verdicts);
      buf := map[];
    }

    /** Write one update on its own. Unless the caller's context is over, it is then stored or refused, for a cause
        that lies in this call. */
    method IsolateOne(ctx: Context, items: seq<Entry>, i: nat, ghost from: nat) returns (stop: bool, now: Context)
      requires db.lanes >= 1 && i < |items| && Distinct(items) && Distinct(items[i..]) && Distinct(items[i + 1..])
      requires Accounted(log, buf, Zip(items[i..]), db.store, lost, db.verdicts)
      requires from <= |log| && NewerOr(buf, log, from, map[])
      modifies this, db
      ensures old(log) <= log && NewerOr(buf, log, from, map[]) && Later(ctx, now) && (stop ==> now.Ended?)
      ensures Wrote(old(db.store), db.store, items[i..i + 1], db.rejects) && old(db.verdicts) <= db.verdicts
      ensures db.sent == old(db.sent) + [[items[i]]]
      ensures AllRefused(db, db.sent, |old(db.sent)|, Since(old(db.verdicts), db.verdicts), items)
      ensures LostFrom(old(lost), lost, items, Since(old(db.verdicts), db.verdicts))
      ensures stop ==> Accounted(log, buf, Zip(items[i..]), db.store, lost, db.verdicts)
      ensures !stop ==> Accounted(log, buf, Zip(items[i + 1..]), db.store, lost, db.verdicts)
      ensures !stop ==> Settled(db.store, items[i], Since(old(db.verdicts), db.verdicts))
    {
      hide Accounted, Zip, Wrote, NewerOr, Distinct, Grew, Since, AllRefused, LostFrom, Answered, Judged, Later,
        Settled, AnyFailed;
      ghost var was, ruled, n := db.store, db.verdicts, |db.sent|;
      OneItem(items, i);
      var e;
      e, now := db.UpdateBatch(ctx, items[i..i + 1]);
      FailedOne(db.fails, n);
      Alone(db, items, i, Since(ruled, db.verdicts), db.sent, n, e, now);
      WriteKeepsAccount(log, buf, items[i..], items[i..i + 1], was, db.store, lost, ruled, db.verdicts, db.rejects);
      ghost var wasLog, wasBuf := log, buf;
      OthersEnqueue(Zip(items[i..]));
      StillNewer(wasBuf, buf, wasLog, log, from);
      LostFewer(old(lost), lost, items, Since(ruled, db.verdicts));
      if e {
        ghost var replied := now;
        now := Wait(now);
        StillLater(ctx, replied, now);
        if now.Ended? {
          return true, now;
        }
        RefuseAlone(db, items, i, ruled, db.verdicts, db.sent, n);
        MoreVerdicts(log, buf, items[i..], db.store, lost, db.verdicts,
                     db.verdicts + [Refused(items[i], FailedAlone(n))]);
        LostFewer(old(lost), lost, items, Since(ruled, db.verdicts + [Refused(items[i], FailedAlone(n))]));
        db.verdicts := db.verdicts + [Refused(items[i], FailedAlone(n))];
      } else {
        SettledAlone(db.store, items[i], Since(ruled, db.verdicts), items[i..i + 1]);
      }
      stop := false;
      ghost var recent := Since(ruled, db.verdicts);
      ghost var more := if Holds(db.store, items[i]) || items[i].key in buf then lost else lost + {items[i].key};
      LostMore(old(lost), lost, more, items, i, recent, db.store);
      JudgedSince(ruled, db.verdicts, items[i], db.store);
      AccountOne(log, buf, items, i, db.store, lost, more, db.verdicts);
      lost := more;
    }

    /** Write the updates one by one, so that one the store refuses does not take the others with it. If the
        caller's context ends, the rest goes back. */
    method Isolate(ctx: Context, items: seq<Entry>, ghost from: nat) returns (err: bool, now: Context)
      requires db.lanes >= 1 && Distinct(items)
      requires Accounted(log, buf, Zip(items), db.store, lost, db.verdicts)
      requires from <= |log| && NewerOr(buf, log, from, map[])
      modifies this, db
      ensures Accounted(log, buf, map[], db.store, lost, db.verdicts)
      ensures old(log) <= log && old(db.verdicts) <= db.verdicts && Later(ctx, now) && (err ==> now.Ended?)
      ensures NewerOr(buf, log, from, if err then Zip(items) else map[])
      ensures Wrote(old(db.store), db.store, items, db.rejects) && old(db.sent) <= db.sent
      ensures AllRefused(db, db.sent, |old(db.sent)|, Since(old(db.verdicts), db.verdicts), items)
      ensures LostFrom(old(lost), lost, items, Since(old(db.verdicts), db.verdicts))
      ensures forall i :: 0 <= i < |items| ==>
                Settled(db.store, items[i], Since(old(db.verdicts), db.verdicts)) || (err && items[i].key in buf)
    {
      hide *;
      now := ctx;
      Untried(db, db.store, items, db.verdicts, lost, ctx, db.sent);
      assert items[0..] == items;
      for i := 0 to |items|
        invariant old(log) <= log && Distinct(items[i..]) && Later(ctx, now)
        invariant Accounted(log, buf, Zip(items[i..]), db.store, lost, db.verdicts) && NewerOr(buf, log, from, map[])
        invariant Wrote(old(db.store), db.store, items, db.rejects) && old(db.verdicts) <= db.verdicts
        invariant old(db.sent) <= db.sent
        invariant AllRefused(db, db.sent, |old(db.sent)|, Since(old(db.verdicts), db.verdicts), items)
        invariant LostFrom(old(lost), lost, items, Since(old(db.verdicts), db.verdicts))
        invariant forall j :: 0 <= j < i ==> Settled(db.store, items[j], Since(old(db.verdicts), db.verdicts))
      {
        ghost var was, ruled, gone, asked, sent := db.store, db.verdicts, lost, now, db.sent;
        Shorter(items, i);
        var stop;
        stop, now := IsolateOne(now, items, i, from);
        StillLater(ctx, asked, now);
        Tried(old(db.store), was, db.store, items, i, old(db.verdicts), ruled, db.verdicts, old(lost), gone, lost,
              db.rejects);
        RefusedBoth(db, old(db.verdicts), ruled, db.verdicts, items, |old(db.sent)|, sent, |sent|, db.sent);
        if stop {
          ghost var mine := buf;
          Requeue(items[i..]);
          RequeuedIsNewerOr(mine, buf, log, from, items, i);
          return true, now;
        }
      }
      Done(log, buf, db.store, lost, db.verdicts, items);
      err := false;
    }

    /** Write the whole batch at once. */
    method Attempt(ctx: Context, items: seq<Entry>, ghost from: nat) returns (err: bool, now: Context)
      requires db.lanes >= 1 && Distinct(items)
      requires Accounted(log, buf, Zip(items), db.store, lost, db.verdicts)
      requires from <= |log| && NewerOr(buf, log, from, map[])
      modifies this, db
      ensures old(log) <= log && NewerOr(buf, log, from, map[]) && old(db.verdicts) <= db.verdicts && Later(ctx, now)
      ensures Wrote(old(db.store), db.store, items, db.rejects)
      ensures old(db.sent) <= db.sent && (err <==> AnyFailed(db.fails, |old(db.sent)|, |db.sent|))
      ensures db.Justified(Since(old(db.verdicts), db.verdicts), items, err, now)
      ensures LostFrom(old(lost), lost, items, Since(old(db.verdicts), db.verdicts))
      ensures err ==> Accounted(log, buf, Zip(items), db.store, lost, db.verdicts)
      ensures !err ==> Accounted(log, buf, map[], db.store, lost, db.verdicts)
      ensures !err ==> forall e :: e in items ==> Answered(db.store, e, Since(old(db.verdicts), db.verdicts))
    {
      hide Accounted, Zip, Wrote, NewerOr, Distinct, Since, LostFrom, Answered, Later, Grew, AnyFailed;
      ghost var was, ruled := db.store, db.verdicts;
      err, now := db.UpdateBatch(ctx, items);
      WriteKeepsAccount(log, buf, items, items, was, db.store, lost, ruled, db.verdicts, db.rejects);
      ghost var wasLog, wasBuf := log, buf;
      OthersEnqueue(Zip(items));
      StillNewer(wasBuf, buf, wasLog, log, from);
      ghost var recent := Since(ruled, db.verdicts);
      LostFewer(old(lost), lost, items, recent);
      if !err {
        ghost var more := lost + Missing(items, db.store, buf);
        Settle(log, buf, items, db.store, old(lost), lost, more, ruled, db.verdicts);
        lost := more;
      }
    }

    /** Write the batch: all at once, and if that fails while the caller still waits, one by one. */
    method WriteOut(ctx: Context, items: seq<Entry>, ghost from: nat) returns (err: bool, now: Context)
      requires db.lanes >= 1 && Distinct(items)
      requires Accounted(log, buf, Zip(items), db.store, lost, db.verdicts)
      requires from <= |log| && NewerOr(buf, log, from, map[])
      modifies this, db
      ensures Accounted(log, buf, map[], db.store, lost, db.verdicts)
      ensures old(log) <= log && old(db.verdicts) <= db.verdicts && Later(ctx, now) && (err ==> now.Ended?)
      ensures NewerOr(buf, log, from, if err then Zip(items) else map[])
      ensures Wrote(old(db.store), db.store, items, db.rejects)
      ensures old(db.sent) <= db.sent && (err ==> AnyFailed(db.fails, |old(db.sent)|, |db.sent|))
      ensures OnItems(db, db.sent, |old(db.sent)| + 1, Since(old(db.verdicts), db.verdicts), items, err, now)
      ensures LostFrom(old(lost), lost, items, Since(old(db.verdicts), db.verdicts))
      ensures forall e :: e in items ==>
                Settled(db.store, e, Since(old(db.verdicts), db.verdicts)) || (err && e.key in buf)
    {
      hide Accounted, Zip, Wrote, NewerOr, Distinct, Since, LostFrom, Answered, Later, AllRefused, Settled, OnItems,
           AnyFailed;
      err, now := Attempt(ctx, items, from);
      ghost var tried, replied, sent := Since(old(db.verdicts), db.verdicts), now, db.sent;
      Reported(db, items, tried, db.sent, |old(db.sent)| + 1, err, now, db.store);
      if !err {
        return;
      }
      SomeSent(db.fails, |old(db.sent)|, |sent|);
      now := Wait(now);
      StillLater(ctx, replied, now);
      if now.Ended? {
        ghost var mine := buf;
        Requeue(items);
        assert items[0..] == items;
        RequeuedIsNewerOr(mine, buf, log, from, items, 0);
        return;
      }
      ghost var waited, written, ruled, gone := now, db.store, db.verdicts, lost;
      err, now := Isolate(now, items, from);
      StillLater(ctx, waited, now);
      FailedEither(db.fails, |old(db.sent)|, |sent|, |db.sent|);
      WroteAgain(old(db.store), written, db.store, items, items, db.rejects);
      SinceSince(old(db.verdicts), ruled, db.verdicts);
      LostInAll(old(lost), gone, lost, items, tried, Since(ruled, db.verdicts));
      RefusedBoth(db, old(db.verdicts), ruled, db.verdicts, items, |old(db.sent)| + 1, sent, |sent|, db.sent);
      TriedTwice(db, items, tried, Since(ruled, db.verdicts), db.sent, |old(db.sent)| + 1, err, now, db.store, buf);
    }

    /** Write the buffer out. Unless the caller's context cut it short, every update buffered before the call is now
        stored or has a verdict, and whatever the buffer holds is newer. Cut short, what was not written is back in
        the buffer, except where a newer update has arrived. An update is refused only because it cannot be parsed or
        because it failed again, all alone, after the batch. Only updates of a batch of several units are given up
        without being tried, and only if the context has ended. If no transaction fails, the flush does not, and the
        store gains exactly the updates it can parse. */
    method Flush(ctx: Context) returns (err: bool, now: Context)
      requires Inv()
      modifies this, db
      ensures Inv() && old(log) <= log && old(db.verdicts) <= db.verdicts && old(db.sent) <= db.sent
      ensures Later(ctx, now) && (err ==> now.Ended? && AnyFailed(db.fails, |old(db.sent)|, |db.sent|))
      ensures NewerOr(buf, log, |old(log)|, if err then old(buf) else map[])
      ensures WroteFrom(old(db.store), db.store, old(buf), db.rejects)
      ensures OnBehalf(db, db.sent, |old(db.sent)| + 1, Since(old(db.verdicts), db.verdicts), old(buf), err, now)
      ensures LostOf(old(lost), lost, old(buf), Since(old(db.verdicts), db.verdicts))
      ensures forall k :: k in old(buf) ==>
                || Settled(db.store, Entry(k, old(buf)[k]), Since(old(db.verdicts), db.verdicts))
                || (err && k in buf)
      ensures !err && Since(old(db.verdicts), db.verdicts) == [] ==> db.store == old(db.store) + old(buf)
      ensures !AnyFailed(db.fails, |old(db.sent)|, |db.sent|) && (!now.Ended? || Compact(old(buf), db.lanes)) ==>
                db.store == old(db.store) + Parsable(old(buf), db.rejects)
    {
      hide Accounted, Zip, Wrote, NewerOr, Distinct, Since, LostFrom, Settled, Later, WroteFrom, OnItems, OnBehalf,
           LostOf, AnyFailed, Compact, Parsable;
      if |buf| == 0 {
        NothingBuffered(db, db.store, buf, log, db.verdicts, lost, ctx, db.sent);
        return false, ctx;
      }
      var items := Drain();
      NoneNewer(log);
      err, now := WriteOut(ctx, items, |log|);
      ghost var recent := Since(old(db.verdicts), db.verdicts);
      ItemsAsTable(db, items, old(buf), old(db.store), db.store, recent, db.sent, |old(db.sent)| + 1, err, now,
                   old(lost), lost);
      AllSettledFor(items, old(buf), db.store, recent, err, buf);
      StillValid(db, old(db.verdicts), db.verdicts, old(db.sent), db.sent, old(buf), err, now);
      if !err && recent == [] {
        AllStored(old(buf), old(db.store), db.store, db.rejects);
      }
      if !AnyFailed(db.fails, |old(db.sent)|, |db.sent|) && (!now.Ended? || Compact(old(buf), db.lanes)) {
        Undisturbed(db, old(buf), old(db.store), db.store, recent, db.sent, |old(db.sent)| + 1, now);
      }
    }

    /** Buffer an update. The caller only pays for a flush when nobody else will write the buffer out in time. */
    method Enqueue(ctx: Context, p: PendingUpdate) returns (err: bool)
      requires Inv()
      modifies this, db
      ensures Inv() && old(db.verdicts) <= db.verdicts
      ensures DedupKey(p).None? ==>
                err && buf == old(buf) && db.store == old(db.store) && log == old(log) &&
                  db.verdicts == old(db.verdicts)
      ensures DedupKey(p).Some? ==> old(log) + [Entry(DedupKey(p).value, p)] <= log
      ensures DedupKey(p).Some? && |old(buf)| + 1 < (if inline then maxBuf else hardCap) ==>
                !err && buf == old(buf)[DedupKey(p).value := p] && db.store == old(db.store)
      ensures DedupKey(p).Some? && err ==> !ctx.Background?
    {
      hide Accounted, WroteFrom, NewerOr, OnBehalf, LostOf, Settled, AnyFailed, Compact, Parsable;
      var k := DedupKey(p);
      if k.None? {
        return true;
      }
      Put(k.value, p, map[]);
      var n := |buf|;
      assert n <= |old(buf)| + 1;
      if (inline && n >= maxBuf) || (!inline && n >= hardCap) {
        var now;
        err, now := Flush(ctx);
        return;
      }
      if !inline && n >= maxBuf {
        signalled := true;
      }
      return false;
    }

    /** Read an ad: the flush in front of it makes sure that the answer is the newest update enqueued before the
        call, or a newer one is on its way, or the database has not taken the newest. If that was not lost before, it
        takes a refusal with its cause in this very call, or a context that ends; and if no transaction fails, only an
        update that cannot be parsed. */
    method Read(ctx: Context, k: Key) returns (err: bool, ad: Option<PendingUpdate>)
      requires Inv()
      modifies this, db
      ensures Inv() && old(db.verdicts) <= db.verdicts && (err ==> !ctx.Background?)
      ensures !err && Latest(old(log), k).Some? ==>
                || ad == Latest(old(log), k)
                || Newer(log, |old(log)|, k)
                || Judged(db.verdicts, Entry(k, Latest(old(log), k).value))
      ensures !err && Latest(old(log), k).Some? && k !in old(lost) &&
              (ctx.Background? || Compact(old(buf), db.lanes)) ==>
                || ad == Latest(old(log), k)
                || Newer(log, |old(log)|, k)
                || RefusedWithCause(db, db.sent, |old(db.sent)| + 1, Since(old(db.verdicts), db.verdicts),
                                    Entry(k, Latest(old(log), k).value))
      ensures !err && Latest(old(log), k).Some? && k !in old(lost) && !AnyFailed(db.fails, |old(db.sent)|, |db.sent|) &&
              (ctx.Background? || Compact(old(buf), db.lanes)) && !db.rejects(Latest(old(log), k).value) ==>
                ad == Latest(old(log), k) || Newer(log, |old(log)|, k)
    {
      hide WroteFrom, Latest, Settled, Since, Compact, OnBehalf, LostOf, AnyFailed, Parsable;
      var now;
      err, now := Flush(ctx);
      if err {
        return true, None;
      }
      ad := if k in db.store then Some(db.store[k]) else None;
      if !Newer(log, |old(log)|, k) {
        NoNewer(old(log), log, k);
        if k in lost && k !in old(lost) {
          WhyLost(db, k, old(log), old(buf), db.sent, |old(db.sent)| + 1, Since(old(db.verdicts), db.verdicts), ctx,
                  now, old(lost), lost);
        }
      }
    }
  }

  /** Every buffered update is newer than the first `from` of the log, or one of `base`. */
  ghost predicate NewerOr(buf: Table, log: seq<Entry>, from: nat, base: Table) {
    forall k :: k in buf ==> Newer(log, from, k) || (k in base && buf[k] == base[k])
  }

  /** Refusals of these items only, each with a cause of its own among the transactions from `from` on. */
  ghost predicate AllRefused(db: Database, sent: seq<seq<Entry>>, from: nat, recent: seq<Verdict>, items: seq<Entry>) {
    forall v :: v in recent ==> v.Refused? && v.entry in items && db.Caused(v, sent, from)
  }

  /** The update is stored or there is a verdict on it. */
  ghost predicate Settled(store: Table, e: Entry, recent: seq<Verdict>) {
    Holds(store, e) || Judged(recent, e)
  }

  /** A key is newly lost only with a verdict on its item. */
  ghost predicate LostFrom(was: set<Key>, now: set<Key>, items: seq<Entry>, recent: seq<Verdict>) {
    forall k :: k in now ==> k in was || exists i :: 0 <= i < |items| && items[i].key == k && Judged(recent, items[i])
  }

  lemma OneItem(items: seq<Entry>, i: nat)
    requires i < |items|
    ensures Distinct(items[i..i + 1]) && items[i..i + 1] == [items[i]]
    ensures forall e :: e in items[i..i + 1] ==> e in items[i..]
  {
    assert items[i..][0] == items[i];
  }

  /** One update by itself is never abandoned. */
  lemma {:induction false} Alone(db: Database, items: seq<Entry>, i: nat, recent: seq<Verdict>, sent: seq<seq<Entry>>,
                                 n: nat, err: bool, now: Context)
    requires i < |items| && items[i..i + 1] == [items[i]] && db.Justified(recent, items[i..i + 1], err, now)
    ensures AllRefused(db, sent, n, recent, items)
  {
    assert SingleUnit([items[i]], db.lanes);
  }

  /** One that failed all alone is refused for that. */
  lemma {:induction false} RefuseAlone(db: Database, items: seq<Entry>, i: nat, was: seq<Verdict>, now: seq<Verdict>,
                                       sent: seq<seq<Entry>>, n: nat)
    requires i < |items| && n < |sent| && sent[n] == [items[i]] && db.fails(n) && was <= now
    requires AllRefused(db, sent, n, Since(was, now), items)
    ensures var v := Refused(items[i], FailedAlone(n));
            && AllRefused(db, sent, n, Since(was, now + [v]), items)
            && forall store :: Settled(store, items[i], Since(was, now + [v]))
  {
    var v := Refused(items[i], FailedAlone(n));
    assert Since(was, now + [v]) == Since(was, now) + [v];
    assert v in Since(was, now + [v]);
    assert Judged(Since(was, now + [v]), items[i]);
  }

  lemma MoreVerdicts(log: seq<Entry>, buf: Table, items: seq<Entry>, store: Table, lost: set<Key>, was: seq<Verdict>,
                     now: seq<Verdict>)
    requires Distinct(items) && was <= now && Accounted(log, buf, Zip(items), store, lost, was)
    ensures Accounted(log, buf, Zip(items), store, lost, now)
  {
    hide Latest, Zip;
  }

  lemma SettledAlone(store: Table, e: Entry, recent: seq<Verdict>, items: seq<Entry>)
    requires items == [e] && forall f :: f in items ==> Answered(store, f, recent)
    ensures Settled(store, e, recent)
  {
    assert e in items;
  }

  lemma {:induction false} RefusedBoth(db: Database, first: seq<Verdict>, before: seq<Verdict>, after: seq<Verdict>,
                                       items: seq<Entry>, from: nat, sent: seq<seq<Entry>>, from': nat,
                                       sent': seq<seq<Entry>>)
    requires first <= before <= after && sent <= sent' && from <= from'
    requires AllRefused(db, sent, from, Since(first, before), items)
    requires AllRefused(db, sent', from', Since(before, after), items)
    ensures AllRefused(db, sent', from, Since(first, after), items)
  {
    SinceSince(first, before, after);
    forall v | v in Since(first, after) ensures db.Caused(v, sent', from) {
      if v in Since(first, before) {
        db.StillCaused(v, sent, sent', from, from);
      } else {
        db.StillCaused(v, sent', sent', from', from);
      }
    }
  }

  lemma LostFewer(was: set<Key>, now: set<Key>, items: seq<Entry>, recent: seq<Verdict>)
    requires now <= was
    ensures LostFrom(was, now, items, recent)
  {
  }

  lemma StillLater(a: Context, b: Context, c: Context)
    requires Later(a, b) && Later(b, c)
    ensures Later(a, c)
  {
  }

  lemma LostMore(was: set<Key>, now: set<Key>, more: set<Key>, items: seq<Entry>, i: nat, recent: seq<Verdict>,
                 store: Table)
    requires i < |items| && LostFrom(was, now, items, recent) && Settled(store, items[i], recent)
    requires more == now || (more == now + {items[i].key} && !Holds(store, items[i]))
    ensures LostFrom(was, more, items, recent)
  {
    hide Judged;
  }

  lemma JudgedSince(was: seq<Verdict>, now: seq<Verdict>, e: Entry, store: Table)
    requires was <= now && Settled(store, e, Since(was, now))
    ensures Holds(store, e) || Judged(now, e)
  {
  }

  /** Writing part of the batch keeps the accounts. */
  lemma WriteKeepsAccount(log: seq<Entry>, buf: Table, items: seq<Entry>, part: seq<Entry>, was: Table, now: Table,
                          lost: set<Key>, before: seq<Verdict>, after: seq<Verdict>, rejects: PendingUpdate -> bool)
    requires Distinct(items) && Accounted(log, buf, Zip(items), was, lost, before) && before <= after
    requires Wrote(was, now, part, rejects) && forall e :: e in part ==> e in items
    ensures Accounted(log, buf, Zip(items), now, lost, after)
  {
    hide Latest, Zip;
    var z := Zip(items);
    assert forall e :: e in items ==> Holds(z, e);
    assert forall k :: k !in z && k in now ==> k in was && now[k] == was[k];
  }

  lemma StillNewer(was: Table, now: Table, log: seq<Entry>, log': seq<Entry>, from: nat)
    requires NewerOr(was, log, from, map[]) && Grew(log, log', was, now) && from <= |log|
    ensures NewerOr(now, log', from, map[])
  {
    hide Latest;
    forall k | k in now ensures Newer(log', from, k) {
      if k in was && now[k] == was[k] && !Newer(log', |log|, k) {
        var i :| from <= i < |log| && log[i].key == k;
        assert log'[i] == log[i];
      }
    }
  }

  /** An update that is stored, superseded or lost is accounted for without the batch. */
  lemma AccountOne(log: seq<Entry>, buf: Table, items: seq<Entry>, i: nat, store: Table, lost: set<Key>,
                   lost': set<Key>, verdicts: seq<Verdict>)
    requires i < |items| && Distinct(items) && Distinct(items[i..]) && Distinct(items[i + 1..])
    requires Accounted(log, buf, Zip(items[i..]), store, lost, verdicts)
    requires lost' == if Holds(store, items[i]) || items[i].key in buf then lost else lost + {items[i].key}
    requires Holds(store, items[i]) || Judged(verdicts, items[i])
    ensures Accounted(log, buf, Zip(items[i + 1..]), store, lost', verdicts)
  {
    hide Latest, Zip, Judged;
    ZipStep(items, i);
    AccountWithout(log, buf, Zip(items[i + 1..]), items[i], store, lost, lost', verdicts);
  }

  lemma ZipStep(items: seq<Entry>, i: nat)
    requires i < |items| && Distinct(items) && Distinct(items[i..]) && Distinct(items[i + 1..])
    ensures Zip(items[i..]) == Zip(items[i + 1..])[items[i].key := items[i].update]
    ensures items[i].key !in Zip(items[i + 1..])
  {
    hide Zip;
    var rest := items[i + 1..];
    assert items[i..][0] == items[i] && items[i..][1..] == rest;
    ZipOne(items[i..]);
    assert forall j :: 0 <= j < |rest| ==> rest[j] == items[i + 1 + j];
  }

  lemma ZipOne(items: seq<Entry>)
    requires |items| > 0 && Distinct(items) && Distinct(items[1..])
    ensures Zip(items) == Zip(items[1..])[items[0].key := items[0].update]
  {
  }

  lemma AccountWithout(log: seq<Entry>, buf: Table, rest: Table, e: Entry, store: Table, lost: set<Key>,
                       lost': set<Key>, verdicts: seq<Verdict>)
    requires Accounted(log, buf, rest[e.key := e.update], store, lost, verdicts) && e.key !in rest
    requires lost' == if Holds(store, e) || e.key in buf then lost else lost + {e.key}
    requires Holds(store, e) || Judged(verdicts, e)
    ensures Accounted(log, buf, rest, store, lost', verdicts)
  {
    hide Latest, Judged;
  }

  lemma Untried(db: Database, store: Table, items: seq<Entry>, verdicts: seq<Verdict>, lost: set<Key>, ctx: Context,
                sent: seq<seq<Entry>>)
    ensures Wrote(store, store, items, db.rejects) && Later(ctx, ctx)
    ensures AllRefused(db, sent, |sent|, Since(verdicts, verdicts), items)
    ensures LostFrom(lost, lost, items, Since(verdicts, verdicts))
  {
  }

  lemma Shorter(items: seq<Entry>, i: nat)
    requires i < |items| && Distinct(items)
    ensures Distinct(items[i..]) && Distinct(items[i + 1..])
  {
  }

  /** What held for the updates tried so far still holds after the next. */
  lemma {:induction false} Tried(start: Table, was: Table, now: Table, items: seq<Entry>, i: nat, first: seq<Verdict>,
                                 before: seq<Verdict>, after: seq<Verdict>, lost0: set<Key>, lost1: set<Key>,
                                 lost2: set<Key>, rejects: PendingUpdate -> bool)
    requires i < |items| && Distinct(items) && first <= before <= after
    requires Wrote(start, was, items, rejects) && Wrote(was, now, items[i..i + 1], rejects)
    requires LostFrom(lost0, lost1, items, Since(first, before)) && LostFrom(lost1, lost2, items, Since(before, after))
    ensures Wrote(start, now, items, rejects) && LostFrom(lost0, lost2, items, Since(first, after))
    ensures forall e :: e in items && Settled(was, e, Since(first, before)) ==> Settled(now, e, Since(first, after))
    ensures Settled(now, items[i], Since(before, after)) ==> Settled(now, items[i], Since(first, after))
  {
    hide Wrote, Distinct, LostFrom, Settled, Since;
    OneItem(items, i);
    SinceSince(first, before, after);
    WroteAgain(start, was, now, items, items[i..i + 1], rejects);
    WroteNothing(was, items, rejects);
    WroteAgain(was, was, now, items, items[i..i + 1], rejects);
    DistinctAgree(items);
    forall e | e in items && Settled(was, e, Since(first, before)) ensures Settled(now, e, Since(first, after)) {
      StaysSettled(was, now, items, e, Since(first, before), Since(before, after), rejects);
    }
    if Settled(now, items[i], Since(before, after)) {
      SettledInAll(now, items[i], Since(first, before), Since(before, after));
    }
    LostInAll(lost0, lost1, lost2, items, Since(first, before), Since(before, after));
  }

  lemma StaysSettled(was: Table, now: Table, items: seq<Entry>, e: Entry, before: seq<Verdict>, more: seq<Verdict>,
                     rejects: PendingUpdate -> bool)
    requires Agree(items) && e in items && Wrote(was, now, items, rejects) && Settled(was, e, before)
    ensures Settled(now, e, before + more)
  {
    if Holds(was, e) {
      StillHolds(was, now, items, e, rejects);
    } else {
      JudgedInAll(before, more, e);
    }
  }

  lemma SettledInAll(store: Table, e: Entry, before: seq<Verdict>, more: seq<Verdict>)
    requires Settled(store, e, more)
    ensures Settled(store, e, before + more)
  {
    JudgedInAll(before, more, e);
  }

  lemma JudgedInAll(a: seq<Verdict>, b: seq<Verdict>, e: Entry)
    ensures Judged(a + b, e) <==> Judged(a, e) || Judged(b, e)
  {
    if v :| v in a && v.entry == e {
      assert v in a + b;
    }
    if v :| v in b && v.entry == e {
      assert v in a + b;
    }
  }

  lemma LostInAll(lost0: set<Key>, lost1: set<Key>, lost2: set<Key>, items: seq<Entry>, a: seq<Verdict>,
                  b: seq<Verdict>)
    requires LostFrom(lost0, lost1, items, a) && LostFrom(lost1, lost2, items, b)
    ensures LostFrom(lost0, lost2, items, a + b)
  {
    hide Judged;
    forall e { JudgedInAll(a, b, e); }
    forall k | k in lost2 && k !in lost0
      ensures exists i :: 0 <= i < |items| && items[i].key == k && Judged(a + b, items[i])
    {
      if k in lost1 {
        var i :| 0 <= i < |items| && items[i].key == k && Judged(a, items[i]);
        assert Judged(a + b, items[i]);
      } else {
        var i :| 0 <= i < |items| && items[i].key == k && Judged(b, items[i]);
        assert Judged(a + b, items[i]);
      }
    }
  }

  lemma RequeuedIsNewerOr(was: Table, now: Table, log: seq<Entry>, from: nat, items: seq<Entry>, i: nat)
    requires i <= |items| && Distinct(items)
    requires NewerOr(was, log, from, map[]) && Requeued(was, now, items[i..])
    ensures NewerOr(now, log, from, Zip(items))
    ensures forall j :: i <= j < |items| ==> items[j].key in now
  {
    hide Newer, Zip;
    var z := Zip(items);
    forall j | i <= j < |items| ensures items[j].key in now {
      assert items[i..][j - i] == items[j];
    }
    assert forall e :: e in items ==> Holds(z, e);
    forall k | k in now && k !in was ensures k in z && now[k] == z[k] {
      assert Entry(k, now[k]) in items;
    }
  }

  lemma Done(log: seq<Entry>, buf: Table, store: Table, lost: set<Key>, verdicts: seq<Verdict>, items: seq<Entry>)
    requires Distinct(items[|items|..]) && Accounted(log, buf, Zip(items[|items|..]), store, lost, verdicts)
    ensures Accounted(log, buf, map[], store, lost, verdicts)
  {
    assert Zip(items[|items|..]) == map[];
  }

  /** Every entry of the store is as it was or one of the table's, and none of the rejected ones. */
  ghost predicate WroteFrom(was: Table, now: Table, t: Table, rejects: PendingUpdate -> bool) {
    && (forall k :: k in was ==> k in now)
    && forall k :: k in now ==> (k in was && now[k] == was[k]) || (k in t && now[k] == t[k] && !rejects(t[k]))
  }

  /** The updates the store can parse. */
  ghost function Parsable(t: Table, rejects: PendingUpdate -> bool): Table {
    map k | k in t && !rejects(t[k]) :: t[k]
  }

  /** The updates of a table make one unit. */
  ghost predicate Compact(t: Table, lanes: nat) {
    && (forall k, l :: k in t && l in t ==> k.adType == l.adType)
    && (lanes <= 1 || |t| <= CommitUnits.ADAPTIVE_FANOUT_CHUNK)
  }

  /** Verdicts on the table's updates only: refusals with a cause among the transactions from `from` on, and none
      abandoned unless the call succeeds, the context has ended and there was more than one unit. */
  ghost predicate OnBehalf(db: Database, sent: seq<seq<Entry>>, from: nat, recent: seq<Verdict>, t: Table, err: bool,
                           now: Context)
  {
    forall v :: v in recent ==>
      && Holds(t, v.entry) && db.Caused(v, sent, from)
      && (v.Abandoned? ==> !err && now.Ended? && !Compact(t, db.lanes))
  }

  ghost predicate LostOf(was: set<Key>, now: set<Key>, t: Table, recent: seq<Verdict>) {
    forall k :: k in now ==> k in was || (k in t && Judged(recent, Entry(k, t[k])))
  }

  ghost predicate OnItems(db: Database, sent: seq<seq<Entry>>, from: nat, recent: seq<Verdict>, items: seq<Entry>,
                          err: bool, now: Context)
  {
    forall v :: v in recent ==>
      && v.entry in items && db.Caused(v, sent, from)
      && (v.Abandoned? ==> !err && now.Ended? && !SingleUnit(items, db.lanes))
  }

  lemma {:induction false} Reported(db: Database, items: seq<Entry>, tried: seq<Verdict>, sent: seq<seq<Entry>>,
                                    from: nat, err: bool, now: Context, store: Table)
    requires db.Justified(tried, items, err, now)
    requires !err ==> forall e :: e in items ==> Answered(store, e, tried)
    ensures OnItems(db, sent, from, tried, items, err, now) && (err ==> AllRefused(db, sent, from, tried, items))
    ensures err ==> forall later :: OnItems(db, sent, from, tried, items, err, later)
    ensures !err ==> forall e :: e in items ==> Settled(store, e, tried)
  {
  }

  lemma SomeSent(fails: nat -> bool, from: nat, to: nat)
    requires AnyFailed(fails, from, to)
    ensures from < to
  {
  }

  lemma {:induction false} TriedTwice(db: Database, items: seq<Entry>, tried: seq<Verdict>, rest: seq<Verdict>,
                                      sent: seq<seq<Entry>>, from: nat, err: bool, now: Context, store: Table,
                                      buf: Table)
    requires AllRefused(db, sent, from, tried + rest, items)
    requires forall i :: 0 <= i < |items| ==> Settled(store, items[i], rest) || (err && items[i].key in buf)
    ensures OnItems(db, sent, from, tried + rest, items, err, now)
    ensures forall e :: e in items ==> Settled(store, e, tried + rest) || (err && e.key in buf)
  {
    hide Judged;
    forall e | e in items ensures Settled(store, e, tried + rest) || (err && e.key in buf) {
      var i :| 0 <= i < |items| && items[i] == e;
      assert Settled(store, items[i], rest) || (err && items[i].key in buf);
      JudgedInAll(tried, rest, e);
    }
  }

  lemma NothingBuffered(db: Database, store: Table, buf: Table, log: seq<Entry>, verdicts: seq<Verdict>, lost: set<Key>,
                        ctx: Context, sent: seq<seq<Entry>>)
    requires |buf| == 0
    ensures WroteFrom(store, store, buf, db.rejects) && NewerOr(buf, log, |log|, map[]) && Later(ctx, ctx)
    ensures store == store + buf && store == store + Parsable(buf, db.rejects)
    ensures OnBehalf(db, sent, |sent| + 1, Since(verdicts, verdicts), buf, false, ctx)
    ensures LostOf(lost, lost, buf, Since(verdicts, verdicts))
  {
  }

  lemma NoneNewer(log: seq<Entry>)
    ensures NewerOr(map[], log, |log|, map[])
  {
  }

  /** What holds of the items holds of the buffer they came from. */
  lemma {:induction false} ItemsAsTable(db: Database, items: seq<Entry>, t: Table, was: Table, now: Table,
                                        recent: seq<Verdict>, sent: seq<seq<Entry>>, from: nat, err: bool, end: Context,
                                        lost0: set<Key>, lost: set<Key>)
    requires Distinct(items) && Zip(items) == t && |items| == |t| && Wrote(was, now, items, db.rejects)
    requires OnItems(db, sent, from, recent, items, err, end) && LostFrom(lost0, lost, items, recent)
    ensures WroteFrom(was, now, t, db.rejects) && OnBehalf(db, sent, from, recent, t, err, end)
    ensures LostOf(lost0, lost, t, recent)
  {
    hide Zip, Judged, SingleUnit;
    assert forall e :: e in items ==> Holds(t, e);
    SameUnit(items, t, db.lanes);
    forall k | k in lost && k !in lost0 ensures k in t && Judged(recent, Entry(k, t[k])) {
      var i :| 0 <= i < |items| && items[i].key == k && Judged(recent, items[i]);
      assert items[i] == Entry(k, t[k]);
    }
  }

  /** Refusals of the past keep their cause, and those of this flush have one. */
  lemma {:induction false} StillValid(db: Database, was: seq<Verdict>, now: seq<Verdict>, sent: seq<seq<Entry>>,
                                      sent': seq<seq<Entry>>, t: Table, err: bool, end: Context)
    requires was <= now && sent <= sent' && forall v :: v in was ==> db.Caused(v, sent, 0)
    requires OnBehalf(db, sent', |sent| + 1, Since(was, now), t, err, end)
    ensures forall v :: v in now ==> db.Caused(v, sent', 0)
  {
    forall v | v in now ensures db.Caused(v, sent', 0) {
      assert now == was + Since(was, now);
      if v in was {
        db.StillCaused(v, sent, sent', 0, 0);
      } else {
        db.StillCaused(v, sent', sent', |sent| + 1, 0);
      }
    }
  }

  /** A flush in which no transaction fails and nothing is abandoned writes exactly what can be parsed. */
  lemma {:induction false} Undisturbed(db: Database, t: Table, was: Table, now: Table, recent: seq<Verdict>,
                                       sent: seq<seq<Entry>>, from: nat, end: Context)
    requires WroteFrom(was, now, t, db.rejects) && OnBehalf(db, sent, from, recent, t, false, end)
    requires from > 0 && !AnyFailed(db.fails, from - 1, |sent|) && (!end.Ended? || Compact(t, db.lanes))
    requires forall k :: k in t ==> Settled(now, Entry(k, t[k]), recent)
    ensures now == was + Parsable(t, db.rejects)
  {
    hide Compact;
    forall k | k in t && !db.rejects(t[k]) ensures k in now && now[k] == t[k] {
      assert Settled(now, Entry(k, t[k]), recent);
    }
  }

  lemma SameUnit(items: seq<Entry>, t: Table, lanes: nat)
    requires Distinct(items) && Zip(items) == t && |items| == |t|
    ensures SingleUnit(items, lanes) <==> Compact(t, lanes)
  {
    hide Zip;
    assert forall e :: e in items ==> Holds(t, e);
    assert forall k :: k in t ==> Entry(k, t[k]) in items && Entry(k, t[k]).key.adType == k.adType;
  }

  lemma {:induction false} AllSettledFor(items: seq<Entry>, t: Table, store: Table, recent: seq<Verdict>, err: bool,
                                         buf: Table)
    requires Distinct(items) && Zip(items) == t
    requires forall e :: e in items ==> Settled(store, e, recent) || (err && e.key in buf)
    ensures forall k :: k in t ==> Settled(store, Entry(k, t[k]), recent) || (err && k in buf)
  {
    hide Zip, Settled;
  }

  lemma {:induction false} AllStored(t: Table, was: Table, now: Table, rejects: PendingUpdate -> bool)
    requires WroteFrom(was, now, t, rejects) && forall k :: k in t ==> Settled(now, Entry(k, t[k]), [])
    ensures now == was + t
  {
    assert forall k :: k in t ==> !Judged([], Entry(k, t[k]));
  }

  lemma NoNewer(was: seq<Entry>, now: seq<Entry>, k: Key)
    requires was <= now && !Newer(now, |was|, k)
    ensures Latest(now, k) == Latest(was, k)
    decreases |now|
  {
    if |now| > |was| {
      var n := |now| - 1;
      assert now[n].key != k;
      forall i | |was| <= i < n ensures now[..n][i].key != k {
        assert now[i].key != k;
      }
      NoNewer(was, now[..n], k);
    } else {
      assert now == was;
    }
  }

  /** The update was refused, for a cause among the transactions from `from` on. */
  ghost predicate RefusedWithCause(db: Database, sent: seq<seq<Entry>>, from: nat, recent: seq<Verdict>, e: Entry) {
    exists v :: v in recent && v.Refused? && v.entry == e && db.Caused(v, sent, from)
  }

  /** A key lost in a flush whose batch was one unit, or that had all the time it needed, was refused; without a failed
      transaction, because it cannot be parsed. */
  lemma {:induction false} WhyLost(db: Database, k: Key, log: seq<Entry>, t: Table, sent: seq<seq<Entry>>, from: nat,
                                   recent: seq<Verdict>, ctx: Context, now: Context, lost0: set<Key>, lost: set<Key>)
    requires k in lost && k !in lost0 && LostOf(lost0, lost, t, recent)
    requires OnBehalf(db, sent, from, recent, t, false, now) && Later(ctx, now) && from > 0
    requires forall l :: l in t ==> Latest(log, l) == Some(t[l])
    ensures ctx.Background? || Compact(t, db.lanes) ==>
              Latest(log, k).Some? && RefusedWithCause(db, sent, from, recent, Entry(k, Latest(log, k).value))
    ensures (ctx.Background? || Compact(t, db.lanes)) && !AnyFailed(db.fails, from - 1, |sent|) ==>
              Latest(log, k).Some? && db.rejects(Latest(log, k).value)
  {
    hide Latest, Compact;
    var v :| v in recent && v.entry == Entry(k, t[k]);
  }

  /** The keys of the items that are neither stored nor superseded. */
  ghost function Missing(items: seq<Entry>, store: Table, buf: Table): (m: set<Key>)
    ensures forall k :: k in m <==> exists e :: e in items && e.key == k && !Holds(store, e) && k !in buf
  {
    if |items| == 0 then {}
    else
      var e := items[|items| - 1];
      Missing(items[..|items| - 1], store, buf) + if Holds(store, e) || e.key in buf then {} else {e.key}
  }

  /** A batch that was answered for is accounted for. */
  lemma {:induction false} Settle(log: seq<Entry>, buf: Table, items: seq<Entry>, store: Table, lost0: set<Key>,
                                  lost: set<Key>, more: set<Key>, before: seq<Verdict>, after: seq<Verdict>)
    requires Distinct(items) && Accounted(log, buf, Zip(items), store, lost, after) && before <= after
    requires forall e :: e in items ==> Answered(store, e, Since(before, after))
    requires LostFrom(lost0, lost, items, Since(before, after)) && more == lost + Missing(items, store, buf)
    ensures Accounted(log, buf, map[], store, more, after) && LostFrom(lost0, more, items, Since(before, after))
  {
    hide Accounted, Missing, Answered, Judged, Zip, Since;
    forall k | k in more && k !in lost
      ensures exists i :: 0 <= i < |items| && items[i].key == k && Judged(Since(before, after), items[i])
      ensures exists e :: e in items && e.key == k && k !in buf && Judged(after, e)
    {
      var e :| e in items && e.key == k && !Holds(store, e) && k !in buf;
      AnsweredIsJudged(store, e, before, after);
      var i :| 0 <= i < |items| && items[i] == e;
      assert Judged(Since(before, after), items[i]);
    }
    forall e | e in items ensures Holds(store, e) || e.key in buf || e.key in more {
    }
    SettleAccount(log, buf, items, store, lost, more, after);
  }

  lemma AnsweredIsJudged(store: Table, e: Entry, before: seq<Verdict>, after: seq<Verdict>)
    requires before <= after && Answered(store, e, Since(before, after)) && !Holds(store, e)
    ensures Judged(Since(before, after), e) && Judged(after, e)
  {
  }

  lemma {:induction false} SettleAccount(log: seq<Entry>, buf: Table, items: seq<Entry>, store: Table, lost: set<Key>,
                                         more: set<Key>, verdicts: seq<Verdict>)
    requires Distinct(items) && Accounted(log, buf, Zip(items), store, lost, verdicts) && lost <= more
    requires forall e :: e in items ==> Holds(store, e) || e.key in buf || e.key in more
    requires forall k :: k in more && k !in lost ==>
               exists e :: e in items && e.key == k && k !in buf && Judged(verdicts, e)
    ensures Accounted(log, buf, map[], store, more, verdicts)
  {
    hide Latest, Zip, Judged;
    var z := Zip(items);
    assert forall e :: e in items ==> Holds(z, e);
  }

  ghost predicate OneEach(items: seq<Entry>, t: Table) {
    && (forall k :: k in t ==> exists i :: 0 <= i < |items| && items[i].key == k)
    && forall i :: 0 <= i < |items| ==> Holds(t, items[i])
  }

  lemma ZipIs(items: seq<Entry>, t: Table)
    requires Distinct(items) && OneEach(items, t)
    ensures Zip(items) == t
  {
    hide Zip;
    var z := Zip(items);
    forall k | k in t ensures k in z && z[k] == t[k] {
      var i :| 0 <= i < |items| && items[i].key == k;
      assert Holds(z, items[i]);
    }
  }

  lemma SwapOut(log: seq<Entry>, buf: Table, store: Table, lost: set<Key>, verdicts: seq<Verdict>)
    requires Accounted(log, buf, map[], store, lost, verdicts)
    ensures Accounted(log, map[], buf, store, lost, verdicts)
  {
    hide Latest;
  }

  /** The items as a table. */
  ghost function Zip(items: seq<Entry>): (t: Table)
    requires Distinct(items)
    ensures forall k :: k in t ==> Entry(k, t[k]) in items
    ensures forall i :: 0 <= i < |items| ==> Holds(t, items[i])
  {
    if |items| == 0 then map[] else Zip(items[1..])[items[0].key := items[0].update]
  }

  /** The updates that were missing are back; the others are untouched. */
  ghost predicate Requeued(was: Table, now: Table, items: seq<Entry>) {
    && (forall k :: k in was ==> k in now && now[k] == was[k])
    && (forall i :: 0 <= i < |items| ==> items[i].key in now)
    && forall k :: k in now && k !in was ==> Entry(k, now[k]) in items
  }

  lemma RequeueOne(was: Table, now: Table, items: seq<Entry>, i: nat)
    requires i < |items| && Requeued(was, now, items[..i])
    ensures Requeued(was, if items[i].key in now then now else now[items[i].key := items[i].update], items[..i + 1])
  {
    assert items[..i + 1] == items[..i] + [items[i]];
  }

  lemma PutBack(log: seq<Entry>, was: Table, now: Table, items: seq<Entry>, store: Table, lost: set<Key>,
                verdicts: seq<Verdict>)
    requires Distinct(items) && Accounted(log, was, Zip(items), store, lost, verdicts) && Requeued(was, now, items)
    ensures Accounted(log, now, map[], store, lost, verdicts)
  {
    hide Latest, Zip, Judged;
    var z := Zip(items);
    forall k | k in z ensures k in now {
      var i :| 0 <= i < |items| && items[i] == Entry(k, z[k]);
      assert items[i].key in now;
    }
    forall k | k in now && k !in was ensures k in z && z[k] == now[k] {
      var i :| 0 <= i < |items| && items[i] == Entry(k, now[k]);
      assert Holds(z, items[i]);
    }
  }

  /** An update for `k` came after the first `from` entries. */
  ghost predicate Newer(log: seq<Entry>, from: nat, k: Key) {
    exists i :: from <= i < |log| && log[i].key == k
  }

  /** Only newer updates were added: keys the log gained are in the buffer, and a buffered update only gives way
      to a newer one. */
  ghost predicate Grew(was: seq<Entry>, now: seq<Entry>, wasBuf: Table, nowBuf: Table) {
    && was <= now && wasBuf.Keys <= nowBuf.Keys
    && (forall k :: k !in nowBuf ==> Latest(now, k) == Latest(was, k))
    && forall k :: k in nowBuf ==> (k in wasBuf && nowBuf[k] == wasBuf[k]) || Newer(now, |was|, k)
  }

  lemma GrewNone(log: seq<Entry>, buf: Table)
    ensures Grew(log, log, buf, buf)
  {
  }

  lemma GrewBy(was: seq<Entry>, now: seq<Entry>, wasBuf: Table, nowBuf: Table, e: Entry)
    requires Grew(was, now, wasBuf, nowBuf)
    ensures Grew(was, now + [e], wasBuf, nowBuf[e.key := e.update])
  {
    hide Latest;
    LatestAppend(now, e);
    var after := now + [e];
    assert after[|now|] == e;
    forall k | k in nowBuf && k != e.key && Newer(now, |was|, k) ensures Newer(after, |was|, k) {
      var i :| |was| <= i < |now| && now[i].key == k;
      assert after[i] == now[i];
    }
    assert Newer(after, |was|, e.key);
  }
}
