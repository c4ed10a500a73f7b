/**
  When an import and an export succeed, and what they read, for every archive text and every
  database (src/commands/import.ts:445-773, src/commands/export.ts:118-267).
 */
module ArchiveRules {
  import opened Options
  import opened Sequences
  import opened Ordering
  import opened ArchiveFormat
  import opened Supersession
  import opened ArchiveStore

  // ---- entries ----

  /** What an archived or stored entry must look like, by its status. */
  ghost predicate Obeys(c: Codec, e: Entry) {
    && match e.status {
         case Candidate => e.supersededBy.None? && e.verifiedAt.None?
         case Verified => e.supersededBy.None? && e.verifiedAt.Some?
         case Superseded => e.supersededBy.Some?
         case OtherStatus(_) => false
       }
    && e.createdAt <= e.updatedAt
    && (e.verifiedAt.None? || !(e.verifiedAt.value < e.createdAt || e.verifiedAt.value > e.updatedAt))
    && e.contentHash == c.contentHash(e.content, e.tags) && Ascending(e.tags, StringLess) && c.valid(e)
  }

  lemma SoundByStatus(c: Codec, e: Entry)
    ensures Sound(c, e) <==> Obeys(c, e)
  {
  }

  // ---- tags ----

  /** The tags that lines name for an entry, in line order. */
  function TaggedAs(tags: seq<(string, string)>, id: string): seq<string> {
    Seconds(Filter(tags, (t: (string, string)) => t.0 == id))
  }

  function Seconds(tags: seq<(string, string)>): seq<string> {
    seq(|tags|, i requires 0 <= i < |tags| => tags[i].1)
  }

  lemma {:induction false} TagsForIsFilter(tags: seq<(string, string)>, id: string)
    ensures TagsFor(tags, id) == TaggedAs(tags, id)
    decreases |tags|
  {
    if tags != [] {
      var last := |tags| - 1;
      var front, t, mine := tags[..last], tags[last], (t: (string, string)) => t.0 == id;
      TagsForIsFilter(front, id);
      assert tags == front + [t];
      FilterAppend(front, [t], mine);
      assert Filter([t], mine) == if mine(t) then [t] else [];
    }
  }

  /** The entries of a document with their tags, moved to the workspace. */
  ghost predicate Gathers(d: Document, ws: string, es: seq<Entry>) {
    |es| == |d.entries| && forall i | 0 <= i < |es| :: IsGathered(d, ws, i, es[i])
  }

  predicate IsGathered(d: Document, ws: string, i: int, e: Entry) {
    0 <= i < |d.entries| && e == d.entries[i].(workspace := ws, tags := TaggedAs(d.tags, d.entries[i].id))
  }

  lemma RegroupGathers(d: Document, ws: string, es: seq<Entry>)
    ensures Gathers(d, ws, es) <==> es == Regroup(d, ws)
  {
    var r := Regroup(d, ws);
    forall i | 0 <= i < |r| ensures IsGathered(d, ws, i, r[i]) {
      TagsForIsFilter(d.tags, d.entries[i].id);
    }
    if Gathers(d, ws, es) {
      forall i | 0 <= i < |es| ensures es[i] == r[i] {
        assert IsGathered(d, ws, i, es[i]) && IsGathered(d, ws, i, r[i]);
      }
    }
  }

  // ---- related lines ----

  ghost predicate Among(es: seq<Entry>, id: string) {
    exists e <- es :: e.id == id
  }

  ghost predicate NoTwo<R>(rows: seq<R>, same: (R, R) -> bool) {
    forall i, j | 0 <= i < j < |rows| :: !same(rows[i], rows[j])
  }

  /** Tags, links and events name archived entries, relations and operations are known, and none comes twice. */
  ghost predicate Related(d: Document, es: seq<Entry>) {
    && (forall t <- d.tags :: Among(es, t.0)) && NoTwo(d.tags, (s, t) => TagIdentity(s) == TagIdentity(t))
    && (forall l <- d.links :: Among(es, l.key.from) && Among(es, l.key.to)
                               && l.key.relation in ["supports", "contradicts", "derived_from", "related_to"])
    && NoTwo(d.links, (k: Link, l: Link) => LinkIdentity(k) == LinkIdentity(l))
    && (forall a <- d.audit :: (a.entryId.None? || Among(es, a.entryId.value))
                               && a.operation in ["record", "promote", "supersede", "link", "import", "purge"])
    && NoTwo(d.audit, (a: Audit, b: Audit) => a.eventId == b.eventId)
  }

  lemma NoTwoDistinct<R, K>(rows: seq<R>, key: R -> K, same: (R, R) -> bool)
    requires forall a, b :: same(a, b) <==> key(a) == key(b)
    ensures NoTwo(rows, same) <==> DistinctBy(rows, key)
  {
  }

  lemma RelatedExactly(d: Document, es: seq<Entry>)
    ensures RelatedOk(d, IdsOf(es)) <==> Related(d, es)
  {
    assert forall id :: id in IdsOf(es) <==> Among(es, id);
    NoTwoDistinct(d.tags, TagIdentity, (s, t) => TagIdentity(s) == TagIdentity(t));
    NoTwoDistinct(d.links, LinkIdentity, (k: Link, l: Link) => LinkIdentity(k) == LinkIdentity(l));
    NoTwoDistinct(d.audit, EventId, (a: Audit, b: Audit) => a.eventId == b.eventId);
    RelatedLines(d, es);
  }

  lemma RelatedLines(d: Document, es: seq<Entry>)
    requires forall id :: id in IdsOf(es) <==> Among(es, id)
    ensures (forall t <- d.tags :: t.0 in IdsOf(es)) <==> (forall t <- d.tags :: Among(es, t.0))
    ensures forall l :: LinkInside(l, IdsOf(es)) <==>
              Among(es, l.key.from) && Among(es, l.key.to)
              && l.key.relation in ["supports", "contradicts", "derived_from", "related_to"]
    ensures forall a :: AuditInside(a, IdsOf(es)) <==>
              (a.entryId.None? || Among(es, a.entryId.value))
              && a.operation in ["record", "promote", "supersede", "link", "import", "purge"]
  {
  }

  // ---- the import ----

  /** What is stored already agrees with the archive, and new content is new to the workspace. */
  ghost predicate Compatible(db: Db, ws: string, es: seq<Entry>, d: Document) {
    && (forall e <- es :: if e.id in db.entries then db.entries[e.id] == e else (ws, e.contentHash) !in db.hashes)
    && (forall l <- d.links :: l.key in db.links ==> db.links[l.key] == l)
    && (forall a <- d.audit :: a.eventId in db.audit ==> db.audit[a.eventId] == a.(workspace := ws))
  }

  lemma CompatibleExactly(db: Db, ws: string, es: seq<Entry>, d: Document)
    requires forall e <- es :: e.workspace == ws
    ensures Plannable(db, es, d.links, Relocated(d.audit, ws)) <==> Compatible(db, ws, es, d)
  {
    var moved := Relocated(d.audit, ws);
    if forall a <- moved :: AuditFits(db, a) {
      forall a <- d.audit ensures a.eventId in db.audit ==> db.audit[a.eventId] == a.(workspace := ws) {
        var i :| 0 <= i < |d.audit| && d.audit[i] == a;
        assert moved[i] in moved;
      }
    }
    if forall a <- d.audit :: a.eventId in db.audit ==> db.audit[a.eventId] == a.(workspace := ws) {
      forall a <- moved ensures AuditFits(db, a) {
        var i :| 0 <= i < |moved| && moved[i] == a;
        assert d.audit[i] in d.audit;
      }
    }
    assert forall e <- es :: EntryFits(db, e) <==> if e.id in db.entries then db.entries[e.id] == e else (ws, e.contentHash) !in db.hashes;
  }

  /** A new identifier has between 1 and 512 characters, none of them a control character. */
  predicate NewIdOk(id: string) {
    1 <= |id| < 513 && forall ch <- id :: ' ' <= ch && ch != '\U{7f}'
  }

  lemma {:induction false} SelectIsFilter<R>(rows: seq<R>, pick: R -> bool)
    ensures Select(rows, pick) == Filter(rows, pick)
    decreases |rows|
  {
    if rows != [] {
      var last := |rows| - 1;
      SelectIsFilter(rows[..last], pick);
      FilterAppend(rows[..last], [rows[last]], pick);
      assert rows == rows[..last] + [rows[last]];
      assert Filter([rows[last]], pick) == if pick(rows[last]) then [rows[last]] else [];
    }
  }

  /** Everything an import demands of an archive of `d` whose gathered entries are `es`. */
  ghost predicate Qualifies(c: Codec, db: Db, text: string, target: Option<string>, d: Document, es: seq<Entry>) {
    var ws := if target.Some? then target.value else d.workspace;
    && Archives(c, text, d) && c.layout(text) && c.workspaceOk(ws) && Gathers(d, ws, es)
    && (forall e <- es :: Obeys(c, e) && e.revision == 1)
    && NoTwo(es, (a: Entry, b: Entry) => a.id == b.id) && NoTwo(es, (a: Entry, b: Entry) => a.contentHash == b.contentHash)
    && WellFounded(ReplacementsOf(Pairs(es))) && Related(d, es)
    && Compatible(db, ws, es, d) && (forall e <- es :: e.id in db.entries || NewIdOk(e.id))
  }

  lemma AdmittedExactly(c: Codec, text: string, target: Option<string>, ws: string, d: Document)
    requires Lawful(c)
    ensures Admitted(c, text, target) == Some((ws, d)) <==>
              && Archives(c, text, d) && c.layout(text) && ws == (if target.Some? then target.value else d.workspace)
              && c.workspaceOk(ws) && Acceptable(c, d, Regroup(d, ws))
  {
    ParseIff(c, text, d);
  }

  lemma AcceptableExactly(c: Codec, d: Document, es: seq<Entry>)
    ensures Acceptable(c, d, es) <==>
              && (forall e <- es :: Obeys(c, e) && e.revision == 1)
              && NoTwo(es, (a: Entry, b: Entry) => a.id == b.id) && NoTwo(es, (a: Entry, b: Entry) => a.contentHash == b.contentHash)
              && WellFounded(ReplacementsOf(Pairs(es))) && Related(d, es)
  {
    forall e <- es { SoundByStatus(c, e); }
    AllSoundExactly(c, es);
    NoTwoDistinct(es, EntryId, (a: Entry, b: Entry) => a.id == b.id);
    NoTwoDistinct(es, HashOf, (a: Entry, b: Entry) => a.contentHash == b.contentHash);
    RelatedExactly(d, es);
  }

  lemma AllSoundExactly(c: Codec, es: seq<Entry>)
    ensures AllSound(c, es) <==> forall e <- es :: Sound(c, e) && e.revision == 1
  {
    if AllSound(c, es) {
      forall e <- es ensures Sound(c, e) && e.revision == 1 {
        var i :| 0 <= i < |es| && es[i] == e;
        assert Importable(c, es[i]);
      }
    }
    if forall e <- es :: Sound(c, e) && e.revision == 1 {
      forall i | 0 <= i < |es| ensures Importable(c, es[i]) { assert es[i] in es; }
    }
  }

  lemma NewRowsAreFiltered<R, K>(m: map<K, R>, rows: seq<R>, key: R -> K, isNew: R -> bool)
    requires forall r :: isNew(r) <==> key(r) !in m
    ensures NewRows(m, rows, key) == Filter(rows, isNew)
  {
    var pick := (r: R) => key(r) !in m;
    SelectIsFilter(rows, pick);
    SameFilter(rows, pick, isNew);
  }

  /** The entries the tables do not hold yet, in order. */
  function Added(db: Db, es: seq<Entry>): seq<Entry> {
    Filter(es, (e: Entry) => e.id !in db.entries)
  }

  lemma NewEntriesAreAdded(db: Db, es: seq<Entry>)
    ensures NewRows(db.entries, es, EntryId) == Added(db, es)
  {
    NewRowsAreFiltered(db.entries, es, EntryId, (e: Entry) => e.id !in db.entries);
  }

  lemma NewIdsExactly(db: Db, es: seq<Entry>)
    ensures NewIdsQueueable(db, es) <==> forall e <- es :: e.id in db.entries || NewIdOk(e.id)
  {
    NewEntriesAreAdded(db, es);
    forall e { FilterMembers(es, (e: Entry) => e.id !in db.entries, e); }
    assert forall id :: Queueable(id) <==> NewIdOk(id);
  }

  /**
    An import succeeds exactly when the text is an archive whose entries obey the rules of their status,
    come once, end every replacement chain inside the archive, are all that tags, links and events refer
    to, and agree with what is stored; and its report counts the entries that were new.
   */
  lemma ImportSucceedsIff(c: Codec, db: Db, text: string, target: Option<string>)
    requires Lawful(c)
    ensures Import(c, db, text, target).Some? <==> exists d, es :: Qualifies(c, db, text, target, d, es)
    ensures forall d, es | Qualifies(c, db, text, target, d, es) ::
              Reports(db, if target.Some? then target.value else d.workspace, es, Import(c, db, text, target))
  {
    if Import(c, db, text, target).Some? {
      var d, es := ImportQualifies(c, db, text, target);
    }
    forall d, es | Qualifies(c, db, text, target, d, es)
      ensures Reports(db, if target.Some? then target.value else d.workspace, es, Import(c, db, text, target))
    {
      QualifiesImports(c, db, text, target, d, es);
    }
  }

  /** The import succeeded and counts the entries, those added and those that were there. */
  predicate Reports(db: Db, ws: string, es: seq<Entry>, r: Option<(Db, Report)>) {
    r.Some? && r.value.1 == Report(ws, |es|, |Added(db, es)|, |es| - |Added(db, es)|)
  }

  lemma ImportQualifies(c: Codec, db: Db, text: string, target: Option<string>) returns (d: Document, es: seq<Entry>)
    requires Lawful(c) && Import(c, db, text, target).Some?
    ensures Qualifies(c, db, text, target, d, es)
  {
    var (ws, doc) := Admitted(c, text, target).value;
    AdmittedExactly(c, text, target, ws, doc);
    QualifiesExactly(c, db, text, target, ws, doc);
    d, es := doc, Regroup(doc, ws);
  }

  lemma QualifiesImports(c: Codec, db: Db, text: string, target: Option<string>, d: Document, es: seq<Entry>)
    requires Lawful(c) && Qualifies(c, db, text, target, d, es)
    ensures Reports(db, if target.Some? then target.value else d.workspace, es, Import(c, db, text, target))
  {
    var ws := if target.Some? then target.value else d.workspace;
    RegroupGathers(d, ws, es);
    QualifiesExactly(c, db, text, target, ws, d);
    AdmittedExactly(c, text, target, ws, d);
    NewEntriesAreAdded(db, es);
  }

  lemma QualifiesExactly(c: Codec, db: Db, text: string, target: Option<string>, ws: string, d: Document)
    requires Archives(c, text, d) && c.layout(text) && ws == (if target.Some? then target.value else d.workspace) && c.workspaceOk(ws)
    ensures Qualifies(c, db, text, target, d, Regroup(d, ws)) <==>
              Acceptable(c, d, Regroup(d, ws)) && Fits(db, Regroup(d, ws), d.links, Relocated(d.audit, ws))
  {
    var es := Regroup(d, ws);
    RegroupGathers(d, ws, es);
    AcceptableExactly(c, d, es);
    CompatibleExactly(db, ws, es, d);
    NewIdsExactly(db, es);
  }

  // ---- the export ----

  /** The rows an export lists: entries of the workspace by identifier, links that touch one of them, events of the workspace or of one of them. */
  lemma ExportLists(db: Db, ws: string)
    requires Integrity(db)
    ensures var es := EntryRows(db, ws);
            && (forall e :: e in es <==> e.id in db.entries && db.entries[e.id] == e && e.workspace == ws)
            && (forall i, j | 0 <= i < j < |es| :: StringLess(es[i].id, es[j].id))
    ensures var ls := LinkRows(db, ws);
            && (forall l :: l in ls <==> l.key in db.links && db.links[l.key] == l && Touches(db, ws, l))
            && (forall i, j | 0 <= i < j < |ls| :: LinkBefore(ls[i].key, ls[j].key))
    ensures var aa := AuditRows(db, ws);
            && (forall a :: a in aa <==> a.eventId in db.audit && db.audit[a.eventId] == a && Concerns(db, ws, a))
            && (forall i, j | 0 <= i < j < |aa| :: StringLess(aa[i].eventId, aa[j].eventId))
  {
    EntriesAreListed(db, ws);
    LinksAreListed(db, ws);
    AuditIsListed(db, ws);
  }

  predicate OfWorkspace(db: Db, ws: string, id: string) {
    id in db.entries && db.entries[id].workspace == ws
  }

  predicate Touches(db: Db, ws: string, l: Link) {
    OfWorkspace(db, ws, l.key.from) || OfWorkspace(db, ws, l.key.to)
  }

  predicate Concerns(db: Db, ws: string, a: Audit) {
    a.workspace == ws || (a.entryId.Some? && OfWorkspace(db, ws, a.entryId.value))
  }

  /** By source, then by target, then by relation. */
  predicate LinkBefore(a: LinkKey, b: LinkKey) {
    if a.from != b.from then StringLess(a.from, b.from)
    else if a.to != b.to then StringLess(a.to, b.to) else StringLess(a.relation, b.relation)
  }

  lemma ListingExactly<K(!new), R>(m: map<K, R>, keys: set<K>, less: (K, K) -> bool, key: R -> K)
    requires StrictTotal(less) && keys <= m.Keys && forall k <- keys :: key(m[k]) == k
    ensures var rows := Listing(m, keys, less);
            && (forall r :: r in rows <==> key(r) in keys && m[key(r)] == r)
            && (forall i, j | 0 <= i < j < |rows| :: less(key(rows[i]), key(rows[j])))
  {
    OrderedLists(keys, less);
    var ks, rows := Ordered(keys, less), Listing(m, keys, less);
    assert forall i | 0 <= i < |ks| :: ks[i] in Elements(ks) && rows[i] == m[ks[i]];
    forall r | key(r) in keys && m[key(r)] == r ensures r in rows {
      assert key(r) in Elements(ks);
      var i :| 0 <= i < |ks| && ks[i] == key(r);
      assert rows[i] == r;
    }
  }

  lemma EntriesAreListed(db: Db, ws: string)
    requires Integrity(db)
    ensures var es := EntryRows(db, ws);
            && (forall e :: e in es <==> e.id in db.entries && db.entries[e.id] == e && e.workspace == ws)
            && (forall i, j | 0 <= i < j < |es| :: StringLess(es[i].id, es[j].id))
  {
    StringOrder();
    assert forall id <- db.entries :: EntryIntegrity(db, id);
    ListingExactly(db.entries, EntryKeys(db, ws), StringLess, EntryId);
    var es := EntryRows(db, ws);
    forall i, j | 0 <= i < j < |es| ensures StringLess(es[i].id, es[j].id) {
      assert StringLess(EntryId(es[i]), EntryId(es[j]));
    }
  }

  lemma LinksAreListed(db: Db, ws: string)
    requires Integrity(db)
    ensures var ls := LinkRows(db, ws);
            && (forall l :: l in ls <==> l.key in db.links && db.links[l.key] == l && Touches(db, ws, l))
            && (forall i, j | 0 <= i < j < |ls| :: LinkBefore(ls[i].key, ls[j].key))
  {
    LinkOrder();
    StringOrder();
    ListingExactly(db.links, LinkKeys(db, ws), LinkLess, KeyOf);
    var ls := LinkRows(db, ws);
    forall i, j | 0 <= i < j < |ls| ensures LinkBefore(ls[i].key, ls[j].key) {
      assert LinkLess(KeyOf(ls[i]), KeyOf(ls[j]));
    }
    assert forall k <- db.links :: k in LinkKeys(db, ws) <==> OfWorkspace(db, ws, k.from) || OfWorkspace(db, ws, k.to);
  }

  lemma AuditIsListed(db: Db, ws: string)
    requires Integrity(db)
    ensures var aa := AuditRows(db, ws);
            && (forall a :: a in aa <==> a.eventId in db.audit && db.audit[a.eventId] == a && Concerns(db, ws, a))
            && (forall i, j | 0 <= i < j < |aa| :: StringLess(aa[i].eventId, aa[j].eventId))
  {
    StringOrder();
    assert forall id <- db.audit :: AuditIntegrity(db, id);
    ListingExactly(db.audit, AuditKeys(db, ws), StringLess, EventId);
    var aa := AuditRows(db, ws);
    forall i, j | 0 <= i < j < |aa| ensures StringLess(aa[i].eventId, aa[j].eventId) {
      assert StringLess(EventId(aa[i]), EventId(aa[j]));
    }
  }

  /**
    An export succeeds exactly when every entry of the workspace is a first revision that obeys the
    rules of its status, replacement chains end inside, no link or event crosses the workspace, and
    the codec admits the lines; the text then is the print of those rows.
   */
  lemma ExportSucceedsIff(c: Codec, db: Db, ws: string)
    requires Integrity(db)
    ensures var es, ls, aa := EntryRows(db, ws), LinkRows(db, ws), AuditRows(db, ws);
            Export(c, db, ws) ==
            if && c.workspaceOk(ws)
               && (forall id <- db.entries | db.entries[id].workspace == ws :: Obeys(c, db.entries[id]) && db.entries[id].revision == 1)
               && WellFounded(ReplacementsOf(Pairs(es)))
               && (forall k <- db.links | Touches(db, ws, db.links[k]) :: OfWorkspace(db, ws, k.from) && OfWorkspace(db, ws, k.to))
               && (forall id <- db.audit | Concerns(db, ws, db.audit[id]) ::
                     var a := db.audit[id];
                     a.workspace == ws && (a.entryId.None? || OfWorkspace(db, ws, a.entryId.value)))
               && AllAdmissible(c, [Manifest(ws, es, ls, aa)] + Body(es, ls, aa)) && c.layout(Print(c, ws, es, ls, aa))
            then Some(Print(c, ws, es, ls, aa)) else None
  {
    ExportLists(db, ws);
    var es := EntryRows(db, ws);
    AllSoundExactly(c, es);
    forall e <- es { SoundByStatus(c, e); }
    assert forall id <- db.entries :: EntryIntegrity(db, id);
    EntriesChecked(c, db, ws);
    LinksChecked(db, ws);
    AuditChecked(db, ws);
  }

  lemma EntriesChecked(c: Codec, db: Db, ws: string)
    requires Integrity(db)
    ensures AllSound(c, EntryRows(db, ws)) <==>
              forall id <- db.entries | db.entries[id].workspace == ws :: Obeys(c, db.entries[id]) && db.entries[id].revision == 1
  {
    var es := EntryRows(db, ws);
    EntriesAreListed(db, ws);
    AllSoundExactly(c, es);
    forall e { SoundByStatus(c, e); }
    assert forall id <- db.entries :: EntryIntegrity(db, id);
    forall id <- db.entries | db.entries[id].workspace == ws ensures db.entries[id] in es { assert EntryIntegrity(db, id); }
  }

  lemma ListedIds(db: Db, ws: string, id: string)
    requires Integrity(db)
    ensures id in IdsOf(EntryRows(db, ws)) <==> OfWorkspace(db, ws, id)
  {
    EntriesAreListed(db, ws);
    if OfWorkspace(db, ws, id) {
      assert EntryIntegrity(db, id) && db.entries[id] in EntryRows(db, ws);
    }
  }

  lemma LinksChecked(db: Db, ws: string)
    requires Integrity(db)
    ensures (forall l <- LinkRows(db, ws) :: LinkInside(l, IdsOf(EntryRows(db, ws)))) <==>
              forall k <- db.links | Touches(db, ws, db.links[k]) :: OfWorkspace(db, ws, k.from) && OfWorkspace(db, ws, k.to)
  {
    LinksAreListed(db, ws);
    forall id { ListedIds(db, ws, id); }
    forall k <- db.links | Touches(db, ws, db.links[k]) ensures db.links[k] in LinkRows(db, ws) { }
  }

  lemma AuditChecked(db: Db, ws: string)
    requires Integrity(db)
    ensures (forall a <- AuditRows(db, ws) :: a.workspace == ws && AuditInside(a, IdsOf(EntryRows(db, ws)))) <==>
              forall id <- db.audit | Concerns(db, ws, db.audit[id]) ::
                var a := db.audit[id];
                a.workspace == ws && (a.entryId.None? || OfWorkspace(db, ws, a.entryId.value))
  {
    AuditIsListed(db, ws);
    forall id { ListedIds(db, ws, id); }
    assert forall id <- db.audit :: AuditIntegrity(db, id);
    forall id <- db.audit | Concerns(db, ws, db.audit[id]) ensures db.audit[id] in AuditRows(db, ws) { assert AuditIntegrity(db, id); }
  }
}
