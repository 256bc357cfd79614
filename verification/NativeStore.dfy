/** The accountant's native store: tables in memory, and an append-only log that rebuilds them. */
module NativeStore {
  import opened Journal
  import opened Options

  datatype Namespace = Acct | Customer | Resource

  /** A record's place. */
  datatype Place = Place(table: Namespace, key: string)

  type Tables = map<Place, Attrs>

  /** One line of the native log. A corrupt one is any that the reader refuses, an overlong one included. */
  datatype Entry = SetEntry(at: Place, attr: string, value: Value) | DelEntry(at: Place) | Corrupt

  function AttrsAt(t: Tables, p: Place): Attrs {
    if p in t then t[p] else map[]
  }

  function Lookup(t: Tables, p: Place, a: string): Option<Value> {
    if a in AttrsAt(t, p) then Some(AttrsAt(t, p)[a]) else None
  }

  function ApplyEntry(t: Tables, e: Entry): Tables {
    match e
    case SetEntry(p, a, v) => t[p := AttrsAt(t, p)[a := v]]
    case DelEntry(p) => t - {p}
    case Corrupt => t
  }

  /** What a log rebuilds. */
  ghost function Rebuilt(log: seq<Entry>): Tables {
    if |log| == 0 then map[] else ApplyEntry(Rebuilt(log[..|log| - 1]), log[|log| - 1])
  }

  lemma RebuiltStep(log: seq<Entry>, e: Entry)
    ensures Rebuilt(log + [e]) == ApplyEntry(Rebuilt(log), e)
  {
    assert (log + [e])[..|log|] == log;
  }

  /** How the log spells a string: bytes that are not valid text are replaced, and valid text is kept. */
  type Spelling = string -> string

  ghost predicate Spells(spell: Spelling) {
    forall s :: spell(spell(s)) == spell(s)
  }

  /** The log gives the string back as it was. */
  predicate Legible(spell: Spelling, s: string) {
    spell(s) == s
  }

  function SpellPlace(spell: Spelling, p: Place): Place {
    p.(key := spell(p.key))
  }

  function SpellValue(spell: Spelling, v: Value): Value {
    if v.Str? then Str(spell(v.s)) else v
  }

  /** The log gives the value back as it was. */
  predicate Lasting(spell: Spelling, v: Value) {
    !v.NotFinite? && (v.Str? ==> Legible(spell, v.s))
  }

  /** A log as the store writes it. */
  ghost predicate Written(spell: Spelling, log: seq<Entry>) {
    forall i :: 0 <= i < |log| ==>
      && !log[i].Corrupt? && Legible(spell, log[i].at.key)
      && (log[i].SetEntry? ==> Legible(spell, log[i].attr) && Lasting(spell, log[i].value))
  }

  /** No record is empty, and every key, attribute and value lasts. */
  ghost predicate Solid(spell: Spelling, t: Tables) {
    forall p :: p in t ==>
      && t[p] != map[] && Legible(spell, p.key)
      && forall a :: a in t[p] ==> Legible(spell, a) && Lasting(spell, t[p][a])
  }

  lemma SolidStep(spell: Spelling, t: Tables, e: Entry)
    requires Solid(spell, t) && !e.Corrupt? && Legible(spell, e.at.key)
    requires e.SetEntry? ==> Legible(spell, e.attr) && Lasting(spell, e.value)
    ensures Solid(spell, ApplyEntry(t, e))
  {
    hide Lasting, Legible;
    if e.SetEntry? {
      assert e.attr in AttrsAt(t, e.at)[e.attr := e.value];
    }
  }

  lemma {:induction false} RebuiltIsSolid(spell: Spelling, log: seq<Entry>)
    requires Written(spell, log)
    ensures Solid(spell, Rebuilt(log))
  {
    hide Lasting, Legible, ApplyEntry;
    if |log| > 0 {
      RebuiltIsSolid(spell, log[..|log| - 1]);
      SolidStep(spell, Rebuilt(log[..|log| - 1]), log[|log| - 1]);
    }
  }

  /** There is no value, or one that lasts. */
  ghost predicate Settled(spell: Spelling, v: Option<Value>) {
    v.None? || Lasting(spell, v.value)
  }

  /** Every value that lasts is in the log, and where there is none the log has none. */
  ghost predicate Agrees(spell: Spelling, t: Tables, r: Tables) {
    forall p, a :: Settled(spell, Lookup(t, p, a)) ==> Lookup(r, p, a) == Lookup(t, p, a)
  }

  lemma SolidSettled(spell: Spelling, t: Tables)
    requires Solid(spell, t)
    ensures forall p, a :: Settled(spell, Lookup(t, p, a))
  {
    hide Lasting, Legible;
  }

  lemma {:induction false} SolidAgreement(spell: Spelling, t: Tables, r: Tables)
    requires Solid(spell, t) && Solid(spell, r) && Agrees(spell, t, r)
    ensures t == r
  {
    hide Lasting, Legible, Settled;
    SolidSettled(spell, t);
    assert forall p, a :: Lookup(r, p, a) == Lookup(t, p, a);
    forall p | p in t ensures p in r && r[p] == t[p] {
      SameRecord(spell, t, r, p);
    }
    forall p | p in r ensures p in t {
      var a :| a in r[p];
      assert Lookup(r, p, a).Some?;
      assert Lookup(t, p, a).Some?;
    }
  }

  lemma {:induction false} SameRecord(spell: Spelling, t: Tables, r: Tables, p: Place)
    requires Solid(spell, t) && Solid(spell, r) && p in t && forall p, a :: Lookup(r, p, a) == Lookup(t, p, a)
    ensures p in r && r[p] == t[p]
  {
    hide Lasting, Legible;
    var b :| b in t[p];
    assert Lookup(t, p, b).Some?;
    assert p in r;
    forall a ensures a in t[p] <==> a in r[p] {
      assert Lookup(t, p, a).Some? <==> Lookup(r, p, a).Some?;
    }
    forall a | a in t[p] ensures t[p][a] == r[p][a] {
      assert Lookup(t, p, a) == Lookup(r, p, a);
    }
  }

  /** All ads but those under `keys` have been merged in. */
  ghost predicate Loaded(was: Tables, now: Tables, ads: Ads, keys: set<string>) {
    && (forall full :: full in ads && SplitKey(full).Some? ==>
          var p := SplitKey(full).value;
          if full in keys then AttrsAt(now, p) == AttrsAt(was, p)
          else p in now && now[p] == AttrsAt(was, p) + ads[full])
    && (forall p :: p in now && FullKey(p) !in ads ==> p in was && now[p] == was[p])
    && forall p :: p in was ==> p in now
  }

  lemma NothingLoaded(t: Tables, ads: Ads)
    ensures Loaded(t, t, ads, ads.Keys)
  {
  }

  lemma MergedElsewhere(t: Tables, p: Place, attrs: Attrs)
    ensures var m := Merged(t, p, attrs);
            && p in m && m[p] == AttrsAt(t, p) + attrs
            && forall q :: q != p ==>
                 (q in m <==> q in t) && (q in t ==> m[q] == t[q]) && AttrsAt(m, q) == AttrsAt(t, q)
  {
  }

  lemma LoadStep(was: Tables, now: Tables, ads: Ads, keys: set<string>, full: string)
    requires Loaded(was, now, ads, keys) && keys <= ads.Keys && full in keys
    ensures var at := SplitKey(full);
            Loaded(was, if at.Some? then Merged(now, at.value, ads[full]) else now, ads, keys - {full})
  {
    hide SplitKey, FullKey, Merged, AttrsAt;
    if SplitKey(full).Some? {
      var p := SplitKey(full).value;
      SplitFull(full);
      MergedElsewhere(now, p, ads[full]);
      forall other | other in ads && SplitKey(other).Some? && other != full ensures SplitKey(other).value != p {
        SplitInjective(full, other);
      }
    }
  }

  lemma AllLoaded(was: Tables, now: Tables, ads: Ads)
    requires Loaded(was, now, ads, {})
    ensures forall full :: full in ads && SplitKey(full).Some? ==>
              var p := SplitKey(full).value;
              p in now && now[p] == AttrsAt(was, p) + ads[full]
    ensures forall p :: p in now && FullKey(p) !in ads ==> p in was && now[p] == was[p]
    ensures forall p :: p in was ==> p in now
  {
    hide SplitKey, FullKey;
  }

  class Store {
    const spell: Spelling

    var tables: Tables
    var log: seq<Entry>
    ghost var named: bool   // every key and attribute so far was legible

    constructor (spell: Spelling)
      requires Spells(spell)
      ensures tables == map[] && log == [] && named && Durable() && this.spell == spell
    {
      this.spell, tables, log, named := spell, map[], [], true;
    }

    ghost predicate Durable()
      reads this
    {
      Spells(spell) && Written(spell, log) && (named ==> Agrees(spell, tables, Rebuilt(log)))
    }

    /** Replaying the log rebuilds the tables only if no record is empty and everything in them lasts. If every name
        was legible from the start, that is also enough. */
    lemma ReplayExact()
      requires Durable()
      ensures Rebuilt(log) == tables ==> Solid(spell, tables)
      ensures named ==> (Rebuilt(log) == tables <==> Solid(spell, tables))
    {
      hide Rebuilt, Agrees, Solid;
      RebuiltIsSolid(spell, log);
      if named && Solid(spell, tables) {
        SolidAgreement(spell, tables, Rebuilt(log));
      }
    }

    /** Append to the log as it spells things; a value that has no representation there is left out. */
    method Append(e: Entry)
      requires !e.Corrupt?
      modifies this`log
      ensures log == if e.SetEntry? && e.value.NotFinite? then old(log) else old(log) + [Spelled(spell, e)]
    {
      if e.SetEntry? && e.value.NotFinite? {
        return;
      }
      log := log + [Spelled(spell, e)];
    }

    method Ensure(p: Place)
      requires Durable()
      modifies this`tables, this`named
      ensures Durable() && tables == old(tables)[p := AttrsAt(old(tables), p)]
      ensures named == (old(named) && Legible(spell, p.key))
    {
      hide Rebuilt, Agrees, Written;
      named := named && Legible(spell, p.key);
      if p !in tables {
        if named {
          SameLookups(spell, tables, tables[p := map[]], Rebuilt(log));
        }
        tables := tables[p := map[]];
      }
    }

    method Set(p: Place, a: string, v: Value)
      requires Durable()
      modifies this
      ensures Durable() && tables == old(tables)[p := AttrsAt(old(tables), p)[a := v]]
      ensures log == if v.NotFinite? then old(log) else old(log) + [Spelled(spell, SetEntry(p, a, v))]
      ensures named == (old(named) && Legible(spell, p.key) && Legible(spell, a))
    {
      hide Rebuilt, Agrees, Written, Legible;
      var e := SetEntry(p, a, v);
      named := named && Legible(spell, p.key) && Legible(spell, a);
      if named {
        SetAgrees(spell, tables, Rebuilt(log), p, a, v);
      }
      RebuiltStep(log, Spelled(spell, e));
      StillWritten(spell, log, e);
      tables := tables[p := AttrsAt(tables, p)[a := v]];
      Append(e);
    }

    method DeleteRecord(p: Place)
      requires Durable()
      modifies this
      ensures Durable() && tables == old(tables) - {p}
      ensures log == if p in old(tables) then old(log) + [Spelled(spell, DelEntry(p))] else old(log)
      ensures named == (old(named) && (p in old(tables) ==> Legible(spell, p.key)))
    {
      hide Rebuilt, Agrees, Written, Legible;
      if p !in tables {
        return;
      }
      named := named && Legible(spell, p.key);
      if named {
        DeleteAgrees(spell, tables, Rebuilt(log), p);
      }
      RebuiltStep(log, Spelled(spell, DelEntry(p)));
      StillWritten(spell, log, DelEntry(p));
      tables := tables - {p};
      Append(DelEntry(p));
    }

    /** Write imported ads into the store. */
    method Load(ads: Ads) returns (n: nat)
      requires Durable()
      modifies this
      ensures Durable()
      ensures forall full :: full in ads && SplitKey(full).Some? ==>
                var p := SplitKey(full).value;
                p in tables && tables[p] == AttrsAt(old(tables), p) + ads[full]
      ensures forall p :: p in tables && FullKey(p) !in ads ==> p in old(tables) && tables[p] == old(tables)[p]
      ensures forall p :: p in old(tables) ==> p in tables
      ensures old(named) && LegibleNames(spell, ads) ==> named
    {
      hide Rebuilt, Agrees, Written, SplitKey, FullKey, Legible, LegibleNames, Loaded, Merged;
      n := 0;
      var keys := ads.Keys;
      NothingLoaded(tables, ads);
      while keys != {}
        invariant keys <= ads.Keys && Durable() && Loaded(old(tables), tables, ads, keys)
        invariant old(named) && LegibleNames(spell, ads) ==> named
        decreases |keys|
      {
        var full :| full in keys;
        var at := SplitKey(full);
        LoadStep(old(tables), tables, ads, keys, full);
        if at.Some? {
          if LegibleNames(spell, ads) {
            LegibleAt(spell, ads, full);
          }
          LoadAd(at.value, ads[full]);
          n := n + 1;
        }
        keys := keys - {full};
      }
      AllLoaded(old(tables), tables, ads);
    }

    method LoadAd(p: Place, attrs: Attrs)
      requires Durable()
      modifies this
      ensures Durable() && tables == Merged(old(tables), p, attrs)
      ensures old(named) && Legible(spell, p.key) && (forall a :: a in attrs ==> Legible(spell, a)) ==> named
    {
      hide Rebuilt, Agrees, Written, Merged, AttrsAt, Legible;
      Ensure(p);
      var names := attrs.Keys;
      ghost var done: Attrs := map[];
      Merge(old(tables), p, done, "", NotFinite);
      while names != {}
        invariant names <= attrs.Keys && Durable() && done.Keys == attrs.Keys - names
        invariant forall a :: a in done ==> done[a] == attrs[a]
        invariant tables == Merged(old(tables), p, done)
        invariant old(named) && Legible(spell, p.key) && (forall a :: a in attrs ==> Legible(spell, a)) ==> named
        decreases |names|
      {
        var a :| a in names;
        Merge(old(tables), p, done, a, attrs[a]);
        Set(p, a, attrs[a]);
        done := done[a := attrs[a]];
        names := names - {a};
      }
      assert done == attrs;
    }

    /** Rebuild the tables from a log; a corrupt line is an error. */
    static method Replay(log: seq<Entry>) returns (tables: Tables, err: bool)
      ensures err <==> exists i :: 0 <= i < |log| && log[i].Corrupt?
      ensures !err ==> tables == Rebuilt(log)
    {
      hide Rebuilt, ApplyEntry;
      tables, err := map[], false;
      assert tables == Rebuilt(log[..0]) by { NothingRebuilt(log); }
      for i := 0 to |log|
        invariant forall j :: 0 <= j < i ==> !log[j].Corrupt?
        invariant tables == Rebuilt(log[..i])
      {
        if log[i].Corrupt? {
          return tables, true;
        }
        RebuiltStep(log[..i], log[i]);
        assert log[..i] + [log[i]] == log[..i + 1];
        tables := ApplyEntry(tables, log[i]);
      }
      assert log[..|log|] == log;
    }
  }

  /** The record at `p` with further attributes merged in. */
  function Merged(t: Tables, p: Place, attrs: Attrs): Tables {
    t[p := AttrsAt(t, p) + attrs]
  }

  lemma Merge(t: Tables, p: Place, done: Attrs, a: string, v: Value)
    ensures var m := Merged(t, p, done); m[p := AttrsAt(m, p)[a := v]] == Merged(t, p, done[a := v])
    ensures Merged(t, p, map[]) == t[p := AttrsAt(t, p)]
  {
    assert (AttrsAt(t, p) + done)[a := v] == AttrsAt(t, p) + done[a := v];
    assert AttrsAt(t, p) + map[] == AttrsAt(t, p);
  }

  lemma NothingRebuilt(log: seq<Entry>)
    ensures Rebuilt(log[..0]) == map[]
  {
  }

  /** The entry as the log spells it. */
  function Spelled(spell: Spelling, e: Entry): Entry
    requires !e.Corrupt?
  {
    match e
    case SetEntry(p, a, v) => SetEntry(SpellPlace(spell, p), spell(a), SpellValue(spell, v))
    case DelEntry(p) => DelEntry(SpellPlace(spell, p))
  }

  lemma StillWritten(spell: Spelling, log: seq<Entry>, e: Entry)
    requires Spells(spell) && Written(spell, log) && !e.Corrupt?
    ensures !(e.SetEntry? && e.value.NotFinite?) ==> Written(spell, log + [Spelled(spell, e)])
  {
  }

  lemma SameLookups(spell: Spelling, t: Tables, u: Tables, r: Tables)
    requires Agrees(spell, t, r) && forall p, a :: Lookup(u, p, a) == Lookup(t, p, a)
    ensures Agrees(spell, u, r)
  {
    hide Settled;
  }

  lemma {:induction false} SetAgrees(spell: Spelling, t: Tables, r: Tables, p: Place, a: string, v: Value)
    requires Agrees(spell, t, r) && Legible(spell, p.key) && Legible(spell, a)
    ensures var u := t[p := AttrsAt(t, p)[a := v]];
            Agrees(spell, u, if v.NotFinite? then r else ApplyEntry(r, Spelled(spell, SetEntry(p, a, v))))
  {
    var u := t[p := AttrsAt(t, p)[a := v]];
    var s := if v.NotFinite? then r else ApplyEntry(r, Spelled(spell, SetEntry(p, a, v)));
    forall q, b | Settled(spell, Lookup(u, q, b)) ensures Lookup(s, q, b) == Lookup(u, q, b) {
      if q == p && b == a {
      } else {
        assert Lookup(u, q, b) == Lookup(t, q, b);
        assert Lookup(s, q, b) == Lookup(r, q, b);
      }
    }
  }

  lemma {:induction false} DeleteAgrees(spell: Spelling, t: Tables, r: Tables, p: Place)
    requires Agrees(spell, t, r) && Legible(spell, p.key)
    ensures Agrees(spell, t - {p}, ApplyEntry(r, Spelled(spell, DelEntry(p))))
  {
    var u, s := t - {p}, ApplyEntry(r, DelEntry(p));
    forall q, b | Settled(spell, Lookup(u, q, b)) ensures Lookup(s, q, b) == Lookup(u, q, b) {
      if q != p {
        assert Lookup(u, q, b) == Lookup(t, q, b);
        assert Lookup(s, q, b) == Lookup(r, q, b);
      }
    }
  }

  lemma OneRecord(spell: Spelling, name: string)
    requires Legible(spell, name)
    ensures Solid(spell, map[Place(Customer, name) := map[name := Int(1)]])
  {
    var attrs: Attrs := map[name := Int(1)];
    assert name in attrs;
  }

  /** Two keys that the log spells alike, one of them legible: deleting the other record takes the legible one along
      in the log, although the tables are sound. */
  method DeletedTwin(spell: Spelling, bad: string) returns (s: Store)
    requires Spells(spell) && !Legible(spell, bad)
    ensures s.Durable() && !s.named && Solid(spell, s.tables) && Rebuilt(s.log) != s.tables
  {
    hide Rebuilt, Agrees, Written;
    var good := Place(Customer, spell(bad));
    s := new Store(spell);
    s.Set(good, spell(bad), Int(1));
    s.Set(Place(Customer, bad), spell(bad), Int(2));
    ghost var log2 := s.log;
    s.DeleteRecord(Place(Customer, bad));
    assert s.tables == map[good := map[spell(bad) := Int(1)]];
    OneRecord(spell, spell(bad));
    RebuiltStep(log2, Spelled(spell, DelEntry(Place(Customer, bad))));
    assert good in s.tables && good !in Rebuilt(s.log);
  }

  // ----- journal keys -----

  const CUSTOMER_PREFIX := "Customer."
  const RESOURCE_PREFIX := "Resource."
  const ACCT_PREFIX := "Accountant."

  function Prefix(t: Namespace): string {
    match t
    case Acct => ACCT_PREFIX
    case Customer => CUSTOMER_PREFIX
    case Resource => RESOURCE_PREFIX
  }

  /** The journal key of a place. */
  function FullKey(p: Place): string {
    Prefix(p.table) + p.key
  }

  /** The place of a journal key; keys of other namespaces have none. */
  function SplitKey(full: string): Option<Place> {
    if CUSTOMER_PREFIX <= full then Some(Place(Customer, full[|CUSTOMER_PREFIX|..]))
    else if RESOURCE_PREFIX <= full then Some(Place(Resource, full[|RESOURCE_PREFIX|..]))
    else if ACCT_PREFIX <= full then Some(Place(Acct, full[|ACCT_PREFIX|..]))
    else None
  }

  lemma SplitFull(full: string)
    requires SplitKey(full).Some?
    ensures FullKey(SplitKey(full).value) == full
  {
  }

  lemma FullSplit(p: Place)
    ensures SplitKey(FullKey(p)) == Some(p)
  {
    var full := FullKey(p);
    assert full[|Prefix(p.table)|..] == p.key;
    assert full[0] == Prefix(p.table)[0];
  }

  lemma SplitInjective(a: string, b: string)
    requires SplitKey(a).Some? && SplitKey(b).Some? && a != b
    ensures SplitKey(a).value != SplitKey(b).value
  {
    SplitFull(a);
    SplitFull(b);
  }

  /** The tables hold the ads of the accountant's namespaces and nothing else. */
  ghost predicate Holds(tables: Tables, ads: Ads) {
    forall p :: (p in tables <==> FullKey(p) in ads) && (p in tables ==> tables[p] == ads[FullKey(p)])
  }

  /** Every such ad has an attribute, and its key, attributes and values last. */
  ghost predicate SolidAds(spell: Spelling, ads: Ads) {
    forall p :: FullKey(p) in ads ==>
      && ads[FullKey(p)] != map[] && Legible(spell, p.key)
      && forall a :: a in ads[FullKey(p)] ==> Legible(spell, a) && Lasting(spell, ads[FullKey(p)][a])
  }

  ghost predicate LegibleNames(spell: Spelling, ads: Ads) {
    forall p :: FullKey(p) in ads ==> Legible(spell, p.key) && forall a :: a in ads[FullKey(p)] ==> Legible(spell, a)
  }

  lemma LegibleAt(spell: Spelling, ads: Ads, full: string)
    requires LegibleNames(spell, ads) && full in ads && SplitKey(full).Some?
    ensures Legible(spell, SplitKey(full).value.key) && forall a :: a in ads[full] ==> Legible(spell, a)
  {
    hide SplitKey, FullKey, Legible;
    SplitFull(full);
    assert FullKey(SplitKey(full).value) in ads;
  }

  /** Importing a journal into a fresh store and reopening it: the rebuilt tables are those of the journal's last
      commit boundary, if and only if each of its ads has an attribute and everything in it lasts. It fails exactly if
      the journal does not let itself be read. */
  method ImportAndReopen(spell: Spelling, journal: seq<Line>) returns (tables: Tables, err: bool)
    requires Spells(spell)
    ensures err <==> Overlong(journal)
    ensures !err ==> (SolidAds(spell, Committed(journal)) <==> Holds(tables, Committed(journal)))
  {
    hide Committed, Overlong, Rebuilt, SplitKey, FullKey, Agrees, Legible, Lasting, LegibleNames, Written, Solid,
      SolidAds, Spells;
    var ads;
    ads, err := ImportLog(journal);
    if err {
      return map[], true;
    }
    var s := new Store(spell);
    var n := s.Load(ads);
    forall p { FullSplit(p); }
    NoneBefore();
    assert Holds(s.tables, ads);
    s.ReplayExact();
    SolidTables(spell, s.tables, ads);
    NotCorrupt(spell, s.log);
    tables, err := Store.Replay(s.log);
    if Holds(tables, ads) {
      assert tables == s.tables;
    }
  }

  lemma NotCorrupt(spell: Spelling, log: seq<Entry>)
    requires Written(spell, log)
    ensures forall i :: 0 <= i < |log| ==> !log[i].Corrupt?
  {
  }

  lemma SolidTables(spell: Spelling, t: Tables, ads: Ads)
    requires Holds(t, ads)
    ensures Solid(spell, t) <==> SolidAds(spell, ads)
    ensures SolidAds(spell, ads) ==> LegibleNames(spell, ads)
  {
    hide FullKey, Legible, Lasting;
  }

  lemma NoneBefore()
    ensures forall p, attrs: Attrs {:trigger AttrsAt(map[], p) + attrs} :: AttrsAt(map[], p) + attrs == attrs
  {
  }
}
