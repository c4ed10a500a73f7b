/** What export and import promise together, for every archive and every database. */
module ArchiveLaws {
  import opened Options
  import opened Ordering
  import opened ArchiveFormat
  import opened Supersession
  import opened ArchiveStore

  lemma NewRowsMembers<R, K, J>(m: map<K, R>, rows: seq<R>, key: R -> K, other: R -> J)
    requires DistinctBy(rows, other)
    ensures var missing := NewRows(m, rows, key);
            && (forall r <- missing :: r in rows && key(r) !in m)
            && (forall r <- rows :: key(r) !in m ==> r in missing)
            && DistinctBy(missing, other)
  {
    var pick := (r: R) => key(r) !in m;
    SelectMembers(rows, pick);
    SelectDistinct(rows, pick, other);
  }

  /** Inserting the missing rows of a compatible archive section. */
  lemma Merged<R, K>(m: map<K, R>, rows: seq<R>, key: R -> K)
    requires DistinctBy(rows, key)
    requires forall r <- rows :: key(r) in m ==> m[key(r)] == r
    ensures var p := Put(m, NewRows(m, rows, key), key, Itself);
            && (forall r <- rows :: key(r) in p && p[key(r)] == r)
            && (forall k <- m :: k in p && p[k] == m[k])
            && (forall k <- p :: k in m || HasKey(rows, key, k))
            && NewRows(p, rows, key) == []
  {
    var missing := NewRows(m, rows, key);
    var p := Put(m, missing, key, Itself);
    NewRowsMembers(m, rows, key, key);
    PutLookup(m, missing, key, Itself);
    forall k <- m ensures !HasKey(missing, key, k) {
    }
    forall r <- rows ensures key(r) in p && p[key(r)] == r {
      if key(r) !in m { assert r in missing; }
    }
    forall k <- p ensures k in m || HasKey(rows, key, k) {
      if k !in m {
        assert HasKey(missing, key, k);
        var r :| r in missing && key(r) == k;
        assert r in rows;
      }
    }
    SelectNone(rows, (r: R) => key(r) !in p);
  }

  lemma RelocatedKeepsEvents(aa: seq<Audit>, ws: string)
    requires DistinctBy(aa, EventId)
    ensures DistinctBy(Relocated(aa, ws), EventId)
  {
    forall i, j | 0 <= i < j < |aa| ensures EventId(Relocated(aa, ws)[i]) != EventId(Relocated(aa, ws)[j]) {
      assert EventId(aa[i]) != EventId(aa[j]);
    }
  }

  lemma FitsAfterInsertion(db: Db, es: seq<Entry>, ls: seq<Link>, aa: seq<Audit>)
    requires Fits(db, es, ls, aa)
    requires DistinctBy(es, EntryId) && DistinctBy(ls, KeyOf) && DistinctBy(aa, EventId)
    ensures var db' := Inserted(db, es, ls, aa);
            Fits(db', es, ls, aa) && NewRows(db'.entries, es, EntryId) == [] && Inserted(db', es, ls, aa) == db'
  {
    Merged(db.entries, es, EntryId);
    Merged(db.links, ls, KeyOf);
    Merged(db.audit, aa, EventId);
  }

  lemma MergeTwice(db: Db, ws: string, es: seq<Entry>, ls: seq<Link>, aa: seq<Audit>)
    requires Merge(db, ws, es, ls, aa).Some?
    requires DistinctBy(es, EntryId) && DistinctBy(ls, KeyOf) && DistinctBy(aa, EventId)
    ensures var (db', report) := Merge(db, ws, es, ls, aa).value;
            && report.count == |es| && report.workspace == ws
            && Merge(db', ws, es, ls, aa) == Some((db', Report(ws, |es|, 0, |es|)))
  {
    FitsAfterInsertion(db, es, ls, aa);
  }

  lemma AcceptableKeys(c: Codec, d: Document, es: seq<Entry>, ws: string)
    requires Acceptable(c, d, es)
    ensures DistinctBy(es, EntryId) && DistinctBy(d.links, KeyOf) && DistinctBy(Relocated(d.audit, ws), EventId)
  {
    DistinctLinks(d.links);
    RelocatedKeepsEvents(d.audit, ws);
  }

  /**
    Importing any archive that was just imported, into the resulting tables, changes nothing
    and reports every entry as a duplicate.
   */
  lemma ImportTwice(c: Codec, db: Db, text: string, target: Option<string>)
    ensures Import(c, db, text, target).Some? ==>
              var (db', report) := Import(c, db, text, target).value;
              Import(c, db', text, target) == Some((db', Report(report.workspace, report.count, 0, report.count)))
  {
    if Import(c, db, text, target).Some? {
      var (ws, d) := Admitted(c, text, target).value;
      AcceptableKeys(c, d, Regroup(d, ws), ws);
      MergeTwice(db, ws, Regroup(d, ws), d.links, Relocated(d.audit, ws));
    }
  }

  /**
    A dry run forecasts the import exactly, unless a new entry has an identifier that the
    embedding queue refuses: planning does not look at that, inserting does.
   */
  lemma DryRunForecasts(c: Codec, db: Db, text: string, target: Option<string>)
    ensures Import(c, db, text, target).Some? <==>
              && DryRun(c, db, text, target).Some?
              && var (ws, d) := Admitted(c, text, target).value;
                 NewIdsQueueable(db, Regroup(d, ws))
    ensures Import(c, db, text, target).Some? ==>
              DryRun(c, db, text, target) == Some(Import(c, db, text, target).value.1)
  {
  }

  // ---- integrity ----

  lemma {:induction false} ReplacementsInside(es: seq<Entry>, id: string)
    ensures id in ReplacementsOf(Pairs(es)) <==> HasKey(es, EntryId, id)
  {
    var ps := Pairs(es);
    if id in ReplacementsOf(ps) {
      var j := KeyIsEntry(ps, id);
      assert es[j] in es && EntryId(es[j]) == id;
    }
    if HasKey(es, EntryId, id) {
      var e :| e in es && EntryId(e) == id;
      var j :| 0 <= j < |es| && es[j] == e;
      EntryIsKey(ps, j);
    }
  }

  /** With distinct ids the replacement map is the listing itself. */
  lemma {:induction false} ReplacementOfEntry(es: seq<Entry>, j: nat)
    requires j < |es| && DistinctBy(es, EntryId)
    ensures es[j].id in ReplacementsOf(Pairs(es)) && ReplacementsOf(Pairs(es))[es[j].id] == es[j].supersededBy
    decreases |es|
  {
    var last := |es| - 1;
    assert Pairs(es)[..last] == Pairs(es[..last]);
    if j < last {
      assert EntryId(es[j]) != EntryId(es[last]);
      ReplacementOfEntry(es[..last], j);
    }
  }

  /** A well-founded archive refers only to its own entries. */
  lemma ReplacementsStayInside(es: seq<Entry>, e: Entry)
    requires e in es && DistinctBy(es, EntryId) && WellFounded(ReplacementsOf(Pairs(es)))
    ensures e.supersededBy.Some? ==> HasKey(es, EntryId, e.supersededBy.value)
  {
    var j: nat :| j < |es| && es[j] == e;
    ReplacementOfEntry(es, j);
    var m := ReplacementsOf(Pairs(es));
    assert Ends(m, e.id);
    var n: nat :| EndsWithin(m, e.id, n);
    if e.supersededBy.Some? {
      assert n > 0 && EndsWithin(m, e.supersededBy.value, n - 1);
      ReplacementsInside(es, e.supersededBy.value);
    }
  }

  lemma HashesMerged(db: Db, ws: string, es: seq<Entry>)
    requires Integrity(db) && DistinctBy(es, EntryId) && DistinctBy(es, HashOf)
    requires forall e <- es :: EntryFits(db, e) && e.workspace == ws
    ensures var missing := NewRows(db.entries, es, EntryId);
            var h := Put(db.hashes, missing, HashKey, EntryId);
            && (forall k <- db.hashes :: k in h && h[k] == db.hashes[k])
            && (forall e <- es :: HashKey(e) in h && h[HashKey(e)] == e.id)
            && (forall k <- h :: h[k] in db.entries || HasKey(es, EntryId, h[k]))
  {
    var missing := NewRows(db.entries, es, EntryId);
    NewRowsMembers(db.entries, es, EntryId, HashOf);
    forall i, j | 0 <= i < j < |missing| ensures HashKey(missing[i]) != HashKey(missing[j]) {
      assert HashOf(missing[i]) != HashOf(missing[j]);
    }
    PutLookup(db.hashes, missing, HashKey, EntryId);
    var h := Put(db.hashes, missing, HashKey, EntryId);
    forall k <- db.hashes ensures !HasKey(missing, HashKey, k) {
    }
    forall e <- es ensures HashKey(e) in h && h[HashKey(e)] == e.id {
      if e.id in db.entries { assert EntryIntegrity(db, e.id); } else { assert e in missing; }
    }
    forall k <- h ensures h[k] in db.entries || HasKey(es, EntryId, h[k]) {
      if k !in db.hashes {
        var e :| e in missing && HashKey(e) == k;
        assert e in es && EntryId(e) == h[k];
      }
    }
  }

  ghost predicate ArchiveInside(es: seq<Entry>, ls: seq<Link>, aa: seq<Audit>) {
    && (forall e <- es :: e.supersededBy.Some? ==> HasKey(es, EntryId, e.supersededBy.value))
    && (forall l <- ls :: LinkInside(l, IdsOf(es)))
    && (forall a <- aa :: AuditInside(a, IdsOf(es)))
  }

  lemma EntriesKeepIntegrity(db: Db, ws: string, es: seq<Entry>, ls: seq<Link>, aa: seq<Audit>)
    requires Integrity(db) && Fits(db, es, ls, aa) && ArchiveInside(es, ls, aa)
    requires DistinctBy(es, EntryId) && DistinctBy(es, HashOf)
    requires forall e <- es :: e.workspace == ws
    ensures var db' := Inserted(db, es, ls, aa);
            && (forall id <- db'.entries :: EntryIntegrity(db', id))
            && (forall k <- db'.hashes :: db'.hashes[k] in db'.entries)
            && db.entries.Keys <= db'.entries.Keys && (forall e <- es :: e.id in db'.entries)
  {
    var db' := Inserted(db, es, ls, aa);
    Merged(db.entries, es, EntryId);
    HashesMerged(db, ws, es);
    NewRowsMembers(db.entries, es, EntryId, EntryId);
    forall id <- db'.entries ensures EntryIntegrity(db', id) {
      if id in db.entries {
        assert EntryIntegrity(db, id);
      } else {
        var e :| e in es && EntryId(e) == id;
        assert e in NewRows(db.entries, es, EntryId);
      }
    }
  }

  lemma RowsKeepIntegrity(db: Db, ws: string, es: seq<Entry>, ls: seq<Link>, aa: seq<Audit>)
    requires Integrity(db) && Fits(db, es, ls, aa) && ArchiveInside(es, ls, aa)
    requires DistinctBy(es, EntryId) && DistinctBy(es, HashOf) && DistinctBy(ls, KeyOf) && DistinctBy(aa, EventId)
    requires forall e <- es :: e.workspace == ws
    ensures Integrity(Inserted(db, es, ls, aa))
  {
    var db' := Inserted(db, es, ls, aa);
    EntriesKeepIntegrity(db, ws, es, ls, aa);
    Merged(db.links, ls, KeyOf);
    Merged(db.audit, aa, EventId);
    forall k <- db'.links
      ensures db'.links[k].key == k && k.from in db'.entries && k.to in db'.entries && k.relation in RELATIONS
    {
      if k !in db.links {
        var l :| l in ls && KeyOf(l) == k;
        assert LinkInside(l, IdsOf(es));
      }
    }
    forall id <- db'.audit ensures AuditIntegrity(db', id) {
      if id in db.audit {
        assert AuditIntegrity(db, id);
      } else {
        var a :| a in aa && EventId(a) == id;
        assert AuditInside(a, IdsOf(es));
      }
    }
  }

  lemma AcceptableInside(c: Codec, d: Document, es: seq<Entry>, ws: string)
    requires Acceptable(c, d, es)
    ensures ArchiveInside(es, d.links, Relocated(d.audit, ws)) && DistinctBy(es, HashOf)
  {
    forall e <- es ensures e.supersededBy.Some? ==> HasKey(es, EntryId, e.supersededBy.value) {
      ReplacementsStayInside(es, e);
    }
    forall a <- Relocated(d.audit, ws) ensures AuditInside(a, IdsOf(es)) {
      var i :| 0 <= i < |d.audit| && a == d.audit[i].(workspace := ws);
      assert d.audit[i] in d.audit;
    }
  }

  /**
    An import never breaks a primary key, the unique content index or a foreign key, so the
    insertions after planning cannot fail on one.
   */
  lemma ImportKeepsIntegrity(c: Codec, db: Db, text: string, target: Option<string>)
    requires Integrity(db)
    ensures Import(c, db, text, target).Some? ==> Integrity(Import(c, db, text, target).value.0)
  {
    if Import(c, db, text, target).Some? {
      var (ws, d) := Admitted(c, text, target).value;
      var es := Regroup(d, ws);
      AcceptableKeys(c, d, es, ws);
      AcceptableInside(c, d, es, ws);
      RowsKeepIntegrity(db, ws, es, d.links, Relocated(d.audit, ws));
    }
  }

  /** Nothing stored before an import is changed or removed by it. */
  lemma ImportOnlyAdds(c: Codec, db: Db, text: string, target: Option<string>)
    ensures Import(c, db, text, target).Some? ==> Extends(db, Import(c, db, text, target).value.0)
  {
    if Import(c, db, text, target).Some? {
      var (ws, d) := Admitted(c, text, target).value;
      AcceptableKeys(c, d, Regroup(d, ws), ws);
      Merged(db.entries, Regroup(d, ws), EntryId);
      Merged(db.links, d.links, KeyOf);
      Merged(db.audit, Relocated(d.audit, ws), EventId);
    }
  }

  /** Every stored entry, link and audit event is still there, unchanged. */
  ghost predicate Extends(db: Db, db': Db) {
    && (forall id <- db.entries :: id in db'.entries && db'.entries[id] == db.entries[id])
    && (forall k <- db.links :: k in db'.links && db'.links[k] == db.links[k])
    && (forall id <- db.audit :: id in db'.audit && db'.audit[id] == db.audit[id])
  }

  /**
    After an import every archived entry, link and event is stored as archived, moved to the
    target workspace, and nothing is stored that was neither there before nor in the archive.
   */
  lemma ImportStoresExactly(c: Codec, db: Db, text: string, target: Option<string>)
    ensures Import(c, db, text, target).Some? ==>
              var (ws, d) := Admitted(c, text, target).value;
              var db' := Import(c, db, text, target).value.0;
              && Holds(db.entries, db'.entries, Regroup(d, ws), EntryId)
              && Holds(db.links, db'.links, d.links, KeyOf)
              && Holds(db.audit, db'.audit, Relocated(d.audit, ws), EventId)
  {
    if Import(c, db, text, target).Some? {
      var (ws, d) := Admitted(c, text, target).value;
      AcceptableKeys(c, d, Regroup(d, ws), ws);
      Merged(db.entries, Regroup(d, ws), EntryId);
      Merged(db.links, d.links, KeyOf);
      Merged(db.audit, Relocated(d.audit, ws), EventId);
    }
  }

  /** The table holds the given rows under their keys, and otherwise only what it held. */
  ghost predicate Holds<R, K>(before: map<K, R>, after: map<K, R>, rows: seq<R>, key: R -> K) {
    && (forall r <- rows :: key(r) in after && after[key(r)] == r)
    && (forall k <- after :: k in before || HasKey(rows, key, k))
  }

  /** Stored entries keep satisfying the lifecycle, hash and tag rules. */
  lemma ImportKeepsSoundness(c: Codec, db: Db, text: string, target: Option<string>)
    requires forall id <- db.entries :: Sound(c, db.entries[id])
    ensures Import(c, db, text, target).Some? ==>
              var db' := Import(c, db, text, target).value.0;
              forall id <- db'.entries :: Sound(c, db'.entries[id])
  {
    if Import(c, db, text, target).Some? {
      ImportStoresExactly(c, db, text, target);
      ImportOnlyAdds(c, db, text, target);
      var (ws, d) := Admitted(c, text, target).value;
      var es, db' := Regroup(d, ws), Import(c, db, text, target).value.0;
      forall id <- db'.entries ensures Sound(c, db'.entries[id]) {
        if id !in db.entries {
          var e :| e in es && EntryId(e) == id;
          var i :| 0 <= i < |es| && es[i] == e;
          assert Importable(c, es[i]);
        }
      }
    }
  }

  // ---- round trip ----

  lemma ListingFacts<K(!new), R>(m: map<K, R>, keys: set<K>, less: (K, K) -> bool, key: R -> K)
    requires StrictTotal(less) && keys <= m.Keys && forall k <- keys :: key(m[k]) == k
    ensures var rows := Listing(m, keys, less);
            && DistinctBy(rows, key)
            && (forall r <- rows :: key(r) in keys && m[key(r)] == r)
            && (forall k <- keys :: m[k] in rows)
  {
    OrderedLists(keys, less);
    var ks, rows := Ordered(keys, less), Listing(m, keys, less);
    assert forall i | 0 <= i < |ks| :: ks[i] in Elements(ks) && rows[i] == m[ks[i]];
    forall i, j | 0 <= i < j < |rows| ensures key(rows[i]) != key(rows[j]) {
      assert less(ks[i], ks[j]);
    }
    forall k <- keys ensures m[k] in rows {
      assert k in Elements(ks);
      var i :| 0 <= i < |ks| && ks[i] == k;
      assert rows[i] == m[k];
    }
  }

  /** Equal key sets with equal rows are listed equally. */
  lemma ListingEqual<K(!new), R>(m: map<K, R>, m': map<K, R>, keys: set<K>, less: (K, K) -> bool)
    requires StrictTotal(less) && keys <= m.Keys && keys <= m'.Keys && forall k <- keys :: m[k] == m'[k]
    ensures Listing(m, keys, less) == Listing(m', keys, less)
  {
    OrderedLists(keys, less);
    var ks := Ordered(keys, less);
    forall i | 0 <= i < |ks| ensures Listing(m, keys, less)[i] == Listing(m', keys, less)[i] {
      assert ks[i] in Elements(ks);
    }
  }

  lemma {:induction false} TagsForAppend(a: seq<(string, string)>, b: seq<(string, string)>, id: string)
    ensures TagsFor(a + b, id) == TagsFor(a, id) + TagsFor(b, id)
    decreases |b|
  {
    if b == [] {
      assert a + b == a;
    } else {
      var last := |b| - 1;
      assert (a + b)[..|a + b| - 1] == a + b[..last];
      TagsForAppend(a, b[..last], id);
    }
  }

  lemma {:induction false} TagsForPairs(owner: string, tags: seq<string>, id: string)
    ensures TagsFor(TagPairs(owner, tags), id) == if owner == id then tags else []
    decreases |tags|
  {
    if tags != [] {
      var last := |tags| - 1;
      assert TagPairs(owner, tags)[..last] == TagPairs(owner, tags[..last]);
      TagsForPairs(owner, tags[..last], id);
      assert tags == tags[..last] + [tags[last]];
    }
  }

  lemma FirstIsAlone(es: seq<Entry>)
    requires es != [] && DistinctBy(es, EntryId)
    ensures !HasKey(es[1..], EntryId, es[0].id) && DistinctBy(es[1..], EntryId)
  {
    var rest := es[1..];
    forall e <- rest ensures EntryId(e) != es[0].id {
      var j :| 0 <= j < |rest| && rest[j] == e;
      assert EntryId(es[0]) != EntryId(es[j + 1]);
    }
    forall i, j | 0 <= i < j < |rest| ensures EntryId(rest[i]) != EntryId(rest[j]) {
      assert EntryId(es[i + 1]) != EntryId(es[j + 1]);
    }
  }

  /** Regrouping the flattened tags gives every entry its own again. */
  lemma {:induction false} TagsForTagsOf(es: seq<Entry>, id: string)
    requires DistinctBy(es, EntryId)
    ensures !HasKey(es, EntryId, id) ==> TagsFor(TagsOf(es), id) == []
    ensures forall e <- es :: e.id == id ==> TagsFor(TagsOf(es), id) == e.tags
    decreases |es|
  {
    if es != [] {
      var first, rest := es[0], es[1..];
      assert es == [first] + rest;
      TagsForTagsOf(rest, id);
      TagsForPairs(first.id, first.tags, id);
      TagsForAppend(TagPairs(first.id, first.tags), TagsOf(rest), id);
      FirstIsAlone(es);
      assert HasKey(es, EntryId, id) <==> first.id == id || HasKey(rest, EntryId, id);
    }
  }

  lemma RegroupPrinted(ws: string, es: seq<Entry>, ls: seq<Link>, aa: seq<Audit>)
    requires DistinctBy(es, EntryId) && forall e <- es :: e.workspace == ws
    ensures Regroup(Document(ws, Untagged(es), TagsOf(es), ls, aa), ws) == es
  {
    var again := Regroup(Document(ws, Untagged(es), TagsOf(es), ls, aa), ws);
    forall i | 0 <= i < |es| ensures again[i] == es[i] {
      TagsForTagsOf(es, es[i].id);
      assert es[i] in es;
    }
  }

  lemma {:induction false} TagsOfMembers(es: seq<Entry>, t: (string, string))
    requires t in TagsOf(es)
    ensures exists e <- es :: t.0 == e.id && t.1 in e.tags
    decreases |es|
  {
    var first, rest := es[0], es[1..];
    if t in TagPairs(first.id, first.tags) {
      assert first in es;
    } else {
      TagsOfMembers(rest, t);
      var e :| e in rest && t.0 == e.id && t.1 in e.tags;
      assert e in es;
    }
  }

  lemma {:induction false} TagsOfDistinct(es: seq<Entry>)
    requires DistinctBy(es, EntryId) && forall e <- es :: TagsCanonical(e.tags)
    ensures DistinctBy(TagsOf(es), Itself)
    decreases |es|
  {
    if es != [] {
      var first, rest := es[0], es[1..];
      var ps, qs := TagPairs(first.id, first.tags), TagsOf(rest);
      FirstIsAlone(es);
      TagsOfDistinct(rest);
      assert first in es;
      forall i, j | 0 <= i < j < |ps| ensures ps[i] != ps[j] {
        assert StringLess(first.tags[i], first.tags[j]);
        StringIrreflexive(first.tags[i]);
      }
      forall i, j | 0 <= i < |ps| && 0 <= j < |qs| ensures ps[i] != qs[j] {
        assert qs[j] in qs;
        TagsOfMembers(rest, qs[j]);
        var e :| e in rest && qs[j].0 == e.id;
        assert EntryId(e) != first.id;
      }
      forall i, j | 0 <= i < j < |TagsOf(es)| ensures Itself(TagsOf(es)[i]) != Itself(TagsOf(es)[j]) {
        if i >= |ps| { assert Itself(qs[i - |ps|]) != Itself(qs[j - |ps|]); }
      }
    }
  }

  /** Exported tags pass the duplicate and ownership checks. */
  lemma ExportedTagsOk(es: seq<Entry>)
    requires DistinctBy(es, EntryId) && forall e <- es :: TagsCanonical(e.tags) && Queueable(e.id)
    ensures TagsOk(TagsOf(es), IdsOf(es))
  {
    var ts := TagsOf(es);
    TagsOfDistinct(es);
    forall t <- ts ensures t.0 in IdsOf(es) && Queueable(t.0) {
      TagsOfMembers(es, t);
    }
    forall i, j | 0 <= i < j < |ts| ensures TagIdentity(ts[i]) != TagIdentity(ts[j]) {
      assert ts[i] in ts && ts[j] in ts && Itself(ts[i]) != Itself(ts[j]);
      if TagIdentity(ts[i]) == TagIdentity(ts[j]) {
        QueueableHasNoNul(ts[i].0);
        QueueableHasNoNul(ts[j].0);
        SeparatorUnique(ts[i].0, ts[j].0, ts[i].1, ts[j].1);
      }
    }
  }

  lemma ExportedLinksOk(es: seq<Entry>, ls: seq<Link>)
    requires DistinctBy(ls, KeyOf)
    requires forall l <- ls :: LinkInside(l, IdsOf(es)) && Queueable(l.key.from) && Queueable(l.key.to)
    ensures LinksOk(ls, IdsOf(es))
  {
    forall i, j | 0 <= i < j < |ls| ensures LinkIdentity(ls[i]) != LinkIdentity(ls[j]) {
      assert ls[i] in ls && ls[j] in ls && KeyOf(ls[i]) != KeyOf(ls[j]);
      IdentitiesAreExact(("", ""), ("", ""), ls[i], ls[j]);
    }
  }

  /** The rows of a workspace, as the export lists them. */
  ghost predicate EntriesListed(db: Db, ws: string, es: seq<Entry>) {
    && DistinctBy(es, EntryId) && DistinctBy(es, HashOf)
    && (forall e <- es :: Queueable(e.id) && e.workspace == ws && e.id in db.entries && db.entries[e.id] == e)
    && (forall id <- EntryKeys(db, ws) :: db.entries[id] in es)
  }

  ghost predicate LinksListed(db: Db, ws: string, ls: seq<Link>) {
    && DistinctBy(ls, KeyOf)
    && (forall l <- ls :: Queueable(l.key.from) && Queueable(l.key.to) && l.key in LinkKeys(db, ws) && db.links[l.key] == l)
    && (forall k <- LinkKeys(db, ws) :: db.links[k] in ls)
  }

  ghost predicate AuditListed(db: Db, ws: string, aa: seq<Audit>) {
    && DistinctBy(aa, EventId)
    && (forall a <- aa :: a.eventId in AuditKeys(db, ws) && db.audit[a.eventId] == a)
    && (forall id <- AuditKeys(db, ws) :: db.audit[id] in aa)
  }

  lemma ListedEntries(db: Db, ws: string)
    requires Integrity(db)
    ensures EntriesListed(db, ws, EntryRows(db, ws))
  {
    StringOrder();
    assert forall id <- db.entries :: EntryIntegrity(db, id);
    ListingFacts(db.entries, EntryKeys(db, ws), StringLess, EntryId);
    var es := EntryRows(db, ws);
    forall i, j | 0 <= i < j < |es| ensures HashOf(es[i]) != HashOf(es[j]) {
      assert es[i] in es && es[j] in es && EntryId(es[i]) != EntryId(es[j]);
      assert EntryIntegrity(db, es[i].id) && EntryIntegrity(db, es[j].id);
    }
  }

  lemma ListedLinks(db: Db, ws: string)
    requires Integrity(db)
    ensures LinksListed(db, ws, LinkRows(db, ws))
  {
    LinkOrder();
    assert forall id <- db.entries :: EntryIntegrity(db, id);
    ListingFacts(db.links, LinkKeys(db, ws), LinkLess, KeyOf);
  }

  lemma ListedAudit(db: Db, ws: string)
    requires Integrity(db)
    ensures AuditListed(db, ws, AuditRows(db, ws))
  {
    StringOrder();
    assert forall id <- db.audit :: AuditIntegrity(db, id);
    ListingFacts(db.audit, AuditKeys(db, ws), StringLess, EventId);
  }

  /** Listed rows that pass the export's checks pass those of the import. */
  lemma ListedAreAcceptable(c: Codec, db: Db, ws: string, es: seq<Entry>, ls: seq<Link>, aa: seq<Audit>)
    requires EntriesListed(db, ws, es) && LinksListed(db, ws, ls) && AuditListed(db, ws, aa)
    requires Exportable(c, ws, es, ls, aa)
    ensures Acceptable(c, Document(ws, Untagged(es), TagsOf(es), ls, aa), es)
  {
    assert forall e <- es :: TagsCanonical(e.tags) by {
      forall e <- es ensures TagsCanonical(e.tags) {
        var i :| 0 <= i < |es| && es[i] == e;
        assert Importable(c, es[i]);
      }
    }
    ExportedTagsOk(es);
    ExportedLinksOk(es, ls);
  }

  lemma ListedAreParsed(c: Codec, db: Db, ws: string, es: seq<Entry>, ls: seq<Link>, aa: seq<Audit>)
    requires Lawful(c) && EntriesListed(db, ws, es) && Exportable(c, ws, es, ls, aa)
    ensures var d := Document(ws, Untagged(es), TagsOf(es), ls, aa);
            Parse(c, Print(c, ws, es, ls, aa)) == Some(d) && Regroup(d, ws) == es && Relocated(aa, ws) == aa
  {
    forall e <- es ensures e.revision == 1 {
      var i :| 0 <= i < |es| && es[i] == e;
      assert Importable(c, es[i]);
    }
    ParsePrint(c, ws, es, ls, aa);
    RegroupPrinted(ws, es, ls, aa);
    assert forall i | 0 <= i < |aa| :: aa[i] in aa;
    assert Relocated(aa, ws) == aa;
  }

  /** An exported text is read back as its rows, and they pass every check. */
  lemma ExportedIsAcceptable(c: Codec, db: Db, ws: string)
    requires Lawful(c) && Integrity(db) && Export(c, db, ws).Some?
    ensures var es, ls, aa := EntryRows(db, ws), LinkRows(db, ws), AuditRows(db, ws);
            var d := Document(ws, Untagged(es), TagsOf(es), ls, aa);
            && Admitted(c, Export(c, db, ws).value, None) == Some((ws, d)) && Acceptable(c, d, es)
            && Regroup(d, ws) == es && Relocated(aa, ws) == aa
  {
    var es, ls, aa := EntryRows(db, ws), LinkRows(db, ws), AuditRows(db, ws);
    ListedEntries(db, ws);
    ListedLinks(db, ws);
    ListedAudit(db, ws);
    ListedAreAcceptable(c, db, ws, es, ls, aa);
    ListedAreParsed(c, db, ws, es, ls, aa);
  }

  /** Importing an export where it came from finds every row in place. */
  lemma ImportOfOwnExport(c: Codec, db: Db, ws: string)
    requires Lawful(c) && Integrity(db) && Export(c, db, ws).Some?
    ensures var n := |EntryRows(db, ws)|;
            Import(c, db, Export(c, db, ws).value, None) == Some((db, Report(ws, n, 0, n)))
  {
    ListedEntries(db, ws);
    ListedLinks(db, ws);
    ListedAudit(db, ws);
    ExportedIsAcceptable(c, db, ws);
    MergeOfStored(db, ws, EntryRows(db, ws), LinkRows(db, ws), AuditRows(db, ws));
  }

  lemma MergeOfStored(db: Db, ws: string, es: seq<Entry>, ls: seq<Link>, aa: seq<Audit>)
    requires DistinctBy(es, EntryId) && DistinctBy(ls, KeyOf) && DistinctBy(aa, EventId)
    requires forall e <- es :: e.id in db.entries && db.entries[e.id] == e
    requires forall l <- ls :: l.key in db.links && db.links[l.key] == l
    requires forall a <- aa :: a.eventId in db.audit && db.audit[a.eventId] == a
    ensures Merge(db, ws, es, ls, aa) == Some((db, Report(ws, |es|, 0, |es|)))
  {
    NoNewRows(db.entries, es, EntryId);
    NoNewRows(db.links, ls, KeyOf);
    NoNewRows(db.audit, aa, EventId);
  }

  lemma NoNewRows<R, K>(m: map<K, R>, rows: seq<R>, key: R -> K)
    requires forall r <- rows :: key(r) in m
    ensures NewRows(m, rows, key) == []
  {
    SelectNone(rows, (r: R) => key(r) !in m);
  }

  lemma AllNewRows<R, K>(rows: seq<R>, key: R -> K)
    ensures NewRows(map[], rows, key) == rows
  {
    var m: map<K, R> := map[];
    SelectAll(rows, (r: R) => key(r) !in m);
  }

  // ---- where a dry run misleads ----

  /** An entry whose identifier ends in a line feed, otherwise sound under the codec. */
  function Awkward(c: Codec, ws: string): Entry {
    var content := Content("fact", "title", "body", None, "{}", "{}");
    Entry("a\n", ws, content, Candidate, "user_asserted", 1, c.contentHash(content, []), 1, None, "cli", 0, 0, None, [])
  }

  /** An archive of that one entry passes every check and the dry run, and cannot be imported. */
  lemma DryRunMisleads(c: Codec, ws: string)
    requires c.valid(Awkward(c, ws))
    ensures var d := Document(ws, [Awkward(c, ws)], [], [], []);
            && Acceptable(c, d, Regroup(d, ws))
            && ForecastInto(EMPTY, ws, d) == Some(Report(ws, 1, 1, 0)) && ImportInto(EMPTY, ws, d) == None
  {
    var e := Awkward(c, ws);
    var d := Document(ws, [e], [], [], []);
    assert Regroup(d, ws) == [e];
    AllNewRows([e], EntryId);
    assert e in NewRows(EMPTY.entries, [e], EntryId) && !Queueable(e.id) by { assert e.id[1] == '\n' && e.id[1] in e.id; }
    LoneEntryEnds(e);
  }

  lemma LoneEntryEnds(e: Entry)
    requires e.supersededBy.None?
    ensures WellFounded(ReplacementsOf(Pairs([e])))
  {
    var m := ReplacementsOf(Pairs([e]));
    var front := Pairs([e])[..0];
    assert front == [] && ReplacementsOf(front) == map[];
    assert m == ReplacementsOf(front)[e.id := None];
    assert EndsWithin(m, e.id, 0);
  }

  /** What an import into empty tables stores. */
  ghost function Restored(es: seq<Entry>, ls: seq<Link>, aa: seq<Audit>): Db {
    Inserted(EMPTY, es, ls, aa)
  }

  lemma EmptyHolds<R, K>(rows: seq<R>, key: R -> K)
    requires DistinctBy(rows, key)
    ensures Holds(map[], Put(map[], NewRows(map[], rows, key), key, Itself), rows, key)
  {
    var none: map<K, R> := map[];
    Merged(none, rows, key);
  }

  lemma MergeIntoEmpty(ws: string, es: seq<Entry>, ls: seq<Link>, aa: seq<Audit>)
    requires DistinctBy(es, EntryId) && DistinctBy(ls, KeyOf) && DistinctBy(aa, EventId)
    requires forall e <- es :: Queueable(e.id)
    ensures Merge(EMPTY, ws, es, ls, aa) == Some((Restored(es, ls, aa), Report(ws, |es|, |es|, 0)))
  {
    AllNewRows(es, EntryId);
  }

  /** The restored tables hold exactly the rows. */
  lemma RestoredHolds(es: seq<Entry>, ls: seq<Link>, aa: seq<Audit>)
    requires DistinctBy(es, EntryId) && DistinctBy(ls, KeyOf) && DistinctBy(aa, EventId)
    ensures var db := Restored(es, ls, aa);
            && Holds(map[], db.entries, es, EntryId) && Holds(map[], db.links, ls, KeyOf) && Holds(map[], db.audit, aa, EventId)
  {
    EmptyHolds(es, EntryId);
    EmptyHolds(ls, KeyOf);
    EmptyHolds(aa, EventId);
  }

  /** Tables that hold exactly the listed entries of a workspace list them again. */
  lemma SameEntryRows(db: Db, db': Db, ws: string, es: seq<Entry>)
    requires EntriesListed(db, ws, es) && Holds(map[], db'.entries, es, EntryId)
    requires forall id <- db.entries :: db.entries[id].id == id
    ensures EntryRows(db', ws) == EntryRows(db, ws)
  {
    SameEntryKeys(db, db', ws, es);
    StringOrder();
    ListingEqual(db.entries, db'.entries, EntryKeys(db, ws), StringLess);
  }

  lemma SameEntryKeys(db: Db, db': Db, ws: string, es: seq<Entry>)
    requires EntriesListed(db, ws, es) && Holds(map[], db'.entries, es, EntryId)
    requires forall id <- db.entries :: db.entries[id].id == id
    ensures EntryKeys(db', ws) == EntryKeys(db, ws)
    ensures forall id <- EntryKeys(db, ws) :: id in db'.entries && db'.entries[id] == db.entries[id]
  {
    forall id <- EntryKeys(db', ws) ensures id in EntryKeys(db, ws) {
      var e :| e in es && EntryId(e) == id;
    }
    forall id <- EntryKeys(db, ws) ensures id in EntryKeys(db', ws) && db'.entries[id] == db.entries[id] {
      assert db.entries[id] in es && EntryId(db.entries[id]) == id;
    }
  }

  lemma SameLinkRows(db: Db, db': Db, ws: string, es: seq<Entry>, ls: seq<Link>)
    requires EntriesListed(db, ws, es) && Holds(map[], db'.entries, es, EntryId)
    requires LinksListed(db, ws, ls) && Holds(map[], db'.links, ls, KeyOf) && forall l <- ls :: LinkInside(l, IdsOf(es))
    requires forall k <- db.links :: db.links[k].key == k
    ensures LinkRows(db', ws) == LinkRows(db, ws)
  {
    forall k <- LinkKeys(db', ws) ensures k in LinkKeys(db, ws) {
      var l :| l in ls && KeyOf(l) == k;
    }
    forall k <- LinkKeys(db, ws) ensures k in LinkKeys(db', ws) && db'.links[k] == db.links[k] {
      var l := db.links[k];
      assert l in ls && KeyOf(l) == k && LinkInside(l, IdsOf(es));
      var e :| e in es && e.id == k.from;
      assert InWorkspace(db', EntryId(e), ws);
    }
    LinkOrder();
    assert LinkKeys(db', ws) == LinkKeys(db, ws);
    ListingEqual(db.links, db'.links, LinkKeys(db, ws), LinkLess);
  }

  lemma SameAuditRows(db: Db, db': Db, ws: string, aa: seq<Audit>)
    requires AuditListed(db, ws, aa) && Holds(map[], db'.audit, aa, EventId) && forall a <- aa :: a.workspace == ws
    requires forall id <- db.audit :: db.audit[id].eventId == id
    ensures AuditRows(db', ws) == AuditRows(db, ws)
  {
    forall id <- AuditKeys(db', ws) ensures id in AuditKeys(db, ws) {
      var a :| a in aa && EventId(a) == id;
    }
    forall id <- AuditKeys(db, ws) ensures id in AuditKeys(db', ws) && db'.audit[id] == db.audit[id] {
      var a := db.audit[id];
      assert a in aa && EventId(a) == id;
    }
    StringOrder();
    assert AuditKeys(db', ws) == AuditKeys(db, ws);
    ListingEqual(db.audit, db'.audit, AuditKeys(db, ws), StringLess);
  }

  /** The restored tables list the same rows, and so export the same text. */
  lemma ExportOfRestored(c: Codec, db: Db, ws: string)
    requires Integrity(db) && Export(c, db, ws).Some?
    ensures var db' := Restored(EntryRows(db, ws), LinkRows(db, ws), AuditRows(db, ws));
            Export(c, db', ws) == Export(c, db, ws)
  {
    var es, ls, aa := EntryRows(db, ws), LinkRows(db, ws), AuditRows(db, ws);
    var db' := Restored(es, ls, aa);
    ListedEntries(db, ws);
    ListedLinks(db, ws);
    ListedAudit(db, ws);
    RestoredHolds(es, ls, aa);
    KeysInOrder(db);
    SameEntryRows(db, db', ws, es);
    SameLinkRows(db, db', ws, es, ls);
    SameAuditRows(db, db', ws, aa);
  }

  lemma KeysInOrder(db: Db)
    requires Integrity(db)
    ensures (forall id <- db.entries :: db.entries[id].id == id) && (forall k <- db.links :: db.links[k].key == k)
    ensures forall id <- db.audit :: db.audit[id].eventId == id
  {
    assert forall id <- db.audit :: AuditIntegrity(db, id);
  }

  /**
    Importing an export into empty tables stores every entry as new, and exporting the
    result gives back the same bytes.
   */
  lemma RoundTrip(c: Codec, db: Db, ws: string)
    requires Lawful(c) && Integrity(db) && Export(c, db, ws).Some?
    ensures var text := Export(c, db, ws).value;
            var n := |EntryRows(db, ws)|;
            var db' := Restored(EntryRows(db, ws), LinkRows(db, ws), AuditRows(db, ws));
            && Import(c, EMPTY, text, None) == Some((db', Report(ws, n, n, 0)))
            && Export(c, db', ws) == Some(text)
  {
    ListedEntries(db, ws);
    ListedLinks(db, ws);
    ListedAudit(db, ws);
    ExportedIsAcceptable(c, db, ws);
    MergeIntoEmpty(ws, EntryRows(db, ws), LinkRows(db, ws), AuditRows(db, ws));
    ExportOfRestored(c, db, ws);
  }
}
