/**
  Exporting a workspace from the tables and importing an archive into them
  (src/commands/export.ts:115-267, src/commands/import.ts:445-929).
 */
module ArchiveStore {
  import opened Options
  import opened Ordering
  import opened ArchiveFormat
  import opened Supersession

  const RELATIONS := {"supports", "contradicts", "derived_from", "related_to"}
  const AUDIT_OPERATIONS := {"record", "promote", "supersede", "link", "import", "purge"}

  /** Entries with their current revision; every stored revision hash with its owner; links; audit events. */
  datatype Db = Db(entries: map<string, Entry>, hashes: map<(string, string), string>,
                   links: map<LinkKey, Link>, audit: map<string, Audit>)

  const EMPTY := Db(map[], map[], map[], map[])

  /** The identifier rule of the embedding queue, which every new entry passes. */
  predicate Queueable(id: string) {
    0 < |id| <= 512 && forall ch <- id :: ch as int > 0x1f && ch as int != 0x7f
  }

  /** Primary keys, the unique content index and the foreign keys. */
  ghost predicate Integrity(db: Db) {
    && (forall id <- db.entries :: EntryIntegrity(db, id))
    && (forall k <- db.hashes :: db.hashes[k] in db.entries)
    && (forall k <- db.links ::
          db.links[k].key == k && k.from in db.entries && k.to in db.entries && k.relation in RELATIONS)
    && (forall id <- db.audit :: AuditIntegrity(db, id))
  }

  ghost predicate EntryIntegrity(db: Db, id: string)
    requires id in db.entries
  {
    var e := db.entries[id];
    && e.id == id && Queueable(id)
    && HashKey(e) in db.hashes && db.hashes[HashKey(e)] == id
    && (e.supersededBy.Some? ==> e.supersededBy.value in db.entries)
  }

  ghost predicate AuditIntegrity(db: Db, id: string)
    requires id in db.audit
  {
    var a := db.audit[id];
    a.eventId == id && a.operation in AUDIT_OPERATIONS && (a.entryId.Some? ==> a.entryId.value in db.entries)
  }

  // ---- rows ----

  function EntryId(e: Entry): string { e.id }
  function HashKey(e: Entry): (string, string) { (e.workspace, e.contentHash) }
  function HashOf(e: Entry): string { e.contentHash }
  function KeyOf(l: Link): LinkKey { l.key }
  function EventId(a: Audit): string { a.eventId }
  function Itself<R>(r: R): R { r }

  /** INSERT of the rows in order. */
  function Put<R, K, V>(m: map<K, V>, rows: seq<R>, key: R -> K, val: R -> V): map<K, V> {
    if rows == [] then m
    else
      var last := |rows| - 1;
      Put(m, rows[..last], key, val)[key(rows[last]) := val(rows[last])]
  }

  ghost predicate DistinctBy<R, K>(rows: seq<R>, key: R -> K) {
    forall i, j | 0 <= i < j < |rows| :: key(rows[i]) != key(rows[j])
  }

  ghost predicate HasKey<R, K>(rows: seq<R>, key: R -> K, k: K) {
    exists r <- rows :: key(r) == k
  }

  lemma {:induction false} PutLookup<R, K, V>(m: map<K, V>, rows: seq<R>, key: R -> K, val: R -> V)
    requires DistinctBy(rows, key)
    ensures var p := Put(m, rows, key, val);
            && (forall k <- p :: k in m || HasKey(rows, key, k))
            && (forall k <- m :: k in p)
            && (forall r <- rows :: key(r) in p && p[key(r)] == val(r))
            && (forall k <- m :: !HasKey(rows, key, k) ==> p[k] == m[k])
    decreases |rows|
  {
    if rows != [] {
      var last := |rows| - 1;
      var front := rows[..last];
      PutLookup(m, front, key, val);
      assert rows == front + [rows[last]];
      var q, p := Put(m, front, key, val), Put(m, rows, key, val);
      forall k ensures HasKey(rows, key, k) <==> HasKey(front, key, k) || k == key(rows[last]) {
        assert rows[last] in rows;
      }
      forall r <- rows ensures key(r) in p && p[key(r)] == val(r) {
        var i :| 0 <= i < |rows| && rows[i] == r;
        if i < last { assert r in front && key(rows[i]) != key(rows[last]); }
      }
      forall k <- m | !HasKey(rows, key, k) ensures p[k] == m[k] {
        assert rows[last] in rows;
      }
    }
  }

  /** The rows that `pick` selects, in order. */
  function Select<R>(rows: seq<R>, pick: R -> bool): (r: seq<R>)
    ensures |r| <= |rows|
  {
    if rows == [] then []
    else
      var last := |rows| - 1;
      Select(rows[..last], pick) + if pick(rows[last]) then [rows[last]] else []
  }

  lemma {:induction false} SelectMembers<R>(rows: seq<R>, pick: R -> bool)
    ensures forall r <- Select(rows, pick) :: r in rows && pick(r)
    ensures forall r <- rows :: pick(r) ==> r in Select(rows, pick)
  {
    if rows != [] {
      var last := |rows| - 1;
      SelectMembers(rows[..last], pick);
      assert rows == rows[..last] + [rows[last]];
    }
  }

  lemma {:induction false} SelectDistinct<R, K>(rows: seq<R>, pick: R -> bool, key: R -> K)
    requires DistinctBy(rows, key)
    ensures DistinctBy(Select(rows, pick), key)
  {
    if rows != [] {
      var last := |rows| - 1;
      var front := Select(rows[..last], pick);
      SelectDistinct(rows[..last], pick, key);
      SelectMembers(rows[..last], pick);
      forall i | 0 <= i < |front| ensures key(front[i]) != key(rows[last]) {
        var r := front[i];
        assert r in front;
        assert r in rows[..last];
        var k :| 0 <= k < last && rows[..last][k] == r;
        assert key(rows[k]) != key(rows[last]);
      }
    }
  }

  lemma {:induction false} SelectAll<R>(rows: seq<R>, pick: R -> bool)
    requires forall r <- rows :: pick(r)
    ensures Select(rows, pick) == rows
  {
    if rows != [] {
      var last := |rows| - 1;
      assert rows[last] in rows;
      SelectAll(rows[..last], pick);
      assert rows == rows[..last] + [rows[last]];
    }
  }

  lemma {:induction false} SelectNone<R>(rows: seq<R>, pick: R -> bool)
    requires forall r <- rows :: !pick(r)
    ensures Select(rows, pick) == []
  {
    if rows != [] {
      var last := |rows| - 1;
      assert rows[last] in rows;
      SelectNone(rows[..last], pick);
    }
  }

  // ---- the import as one transition ----

  /** Strictly ascending: what de-duplicating and sorting the tags leaves unchanged. */
  predicate TagsCanonical(tags: seq<string>) {
    forall i, j | 0 <= i < j < |tags| :: StringLess(tags[i], tags[j])
  }

  /** The lifecycle, hash and tag rules shared by `importedEntry` and the stored-row decoder. */
  predicate Sound(c: Codec, e: Entry) {
    && !e.status.OtherStatus?
    && (e.status.Superseded? <==> e.supersededBy.Some?)
    && (e.status.Candidate? ==> e.verifiedAt.None?)
    && (e.status.Verified? ==> e.verifiedAt.Some?)
    && e.createdAt <= e.updatedAt
    && (e.verifiedAt.Some? ==> e.createdAt <= e.verifiedAt.value <= e.updatedAt)
    && c.contentHash(e.content, e.tags) == e.contentHash
    && TagsCanonical(e.tags)
    && c.valid(e)
  }

  function TagsFor(tags: seq<(string, string)>, id: string): seq<string> {
    if tags == [] then []
    else
      var last := |tags| - 1;
      TagsFor(tags[..last], id) + if tags[last].0 == id then [tags[last].1] else []
  }

  function Regroup(d: Document, workspace: string): seq<Entry> {
    seq(|d.entries|, i requires 0 <= i < |d.entries| =>
      d.entries[i].(tags := TagsFor(d.tags, d.entries[i].id), workspace := workspace))
  }

  function Pairs(es: seq<Entry>): seq<(string, Option<string>)> {
    seq(|es|, i requires 0 <= i < |es| => (es[i].id, es[i].supersededBy))
  }

  function IdsOf(es: seq<Entry>): set<string> {
    set e <- es :: e.id
  }

  /** Duplicates are detected on NUL-separated strings. */
  function TagIdentity(t: (string, string)): string { t.0 + "\0" + t.1 }
  function LinkIdentity(l: Link): string { l.key.from + "\0" + l.key.to + "\0" + l.key.relation }

  ghost predicate TagsOk(ts: seq<(string, string)>, ids: set<string>) {
    (forall t <- ts :: t.0 in ids) && DistinctBy(ts, TagIdentity)
  }

  predicate LinkInside(l: Link, ids: set<string>) {
    l.key.from in ids && l.key.to in ids && l.key.relation in RELATIONS
  }

  ghost predicate LinksOk(ls: seq<Link>, ids: set<string>) {
    (forall l <- ls :: LinkInside(l, ids)) && DistinctBy(ls, LinkIdentity)
  }

  predicate AuditInside(a: Audit, ids: set<string>) {
    (a.entryId.Some? ==> a.entryId.value in ids) && a.operation in AUDIT_OPERATIONS
  }

  ghost predicate AuditOk(aa: seq<Audit>, ids: set<string>) {
    (forall a <- aa :: AuditInside(a, ids)) && DistinctBy(aa, EventId)
  }

  ghost predicate RelatedOk(d: Document, ids: set<string>) {
    TagsOk(d.tags, ids) && LinksOk(d.links, ids) && AuditOk(d.audit, ids)
  }

  predicate AllSound(c: Codec, es: seq<Entry>) {
    forall i | 0 <= i < |es| :: Importable(c, es[i])
  }

  predicate Importable(c: Codec, e: Entry) {
    Sound(c, e) && e.revision == 1
  }

  /** Everything checked before the database is consulted. */
  ghost predicate Acceptable(c: Codec, d: Document, es: seq<Entry>) {
    && AllSound(c, es)
    && DistinctBy(es, EntryId)
    && DistinctBy(es, HashOf)
    && WellFounded(ReplacementsOf(Pairs(es)))
    && RelatedOk(d, IdsOf(es))
  }

  predicate EntryFits(db: Db, e: Entry) {
    if e.id in db.entries then db.entries[e.id] == e else HashKey(e) !in db.hashes
  }

  predicate LinkFits(db: Db, l: Link) {
    l.key in db.links ==> db.links[l.key] == l
  }

  predicate AuditFits(db: Db, a: Audit) {
    a.eventId in db.audit ==> db.audit[a.eventId] == a
  }

  function Relocated(aa: seq<Audit>, workspace: string): seq<Audit> {
    seq(|aa|, i requires 0 <= i < |aa| => aa[i].(workspace := workspace))
  }

  /** The rows whose key the table does not hold yet. */
  function NewRows<R, K>(m: map<K, R>, rows: seq<R>, key: R -> K): (r: seq<R>)
    ensures |r| <= |rows|
  {
    Select(rows, (r: R) => key(r) !in m)
  }

  /** No planning conflict: stored rows with the same key are identical, new content is new. */
  ghost predicate Plannable(db: Db, es: seq<Entry>, ls: seq<Link>, aa: seq<Audit>) {
    && (forall e <- es :: EntryFits(db, e))
    && (forall l <- ls :: LinkFits(db, l))
    && (forall a <- aa :: AuditFits(db, a))
  }

  predicate NewIdsQueueable(db: Db, es: seq<Entry>) {
    forall e <- NewRows(db.entries, es, EntryId) :: Queueable(e.id)
  }

  ghost predicate Fits(db: Db, es: seq<Entry>, ls: seq<Link>, aa: seq<Audit>) {
    Plannable(db, es, ls, aa) && NewIdsQueueable(db, es)
  }

  /** What planning found missing. */
  datatype Plan = Plan(entries: seq<Entry>, duplicates: nat, links: seq<Link>, audit: seq<Audit>)

  function PlanOf(db: Db, es: seq<Entry>, ls: seq<Link>, aa: seq<Audit>): Plan {
    var missing := NewRows(db.entries, es, EntryId);
    Plan(missing, |es| - |missing|, NewRows(db.links, ls, KeyOf), NewRows(db.audit, aa, EventId))
  }

  function InsertedPlan(db: Db, plan: Plan): Db {
    Db(Put(db.entries, plan.entries, EntryId, Itself), Put(db.hashes, plan.entries, HashKey, EntryId),
       Put(db.links, plan.links, KeyOf, Itself), Put(db.audit, plan.audit, EventId, Itself))
  }

  function Inserted(db: Db, es: seq<Entry>, ls: seq<Link>, aa: seq<Audit>): Db {
    InsertedPlan(db, PlanOf(db, es, ls, aa))
  }

  datatype Report = Report(workspace: string, count: nat, imported: nat, duplicates: nat)

  function ReportOf(db: Db, ws: string, es: seq<Entry>): Report {
    var imported := |NewRows(db.entries, es, EntryId)|;
    Report(ws, |es|, imported, |es| - imported)
  }

  /** `importWorkspace` on an archive text: None stands for a throw, with the tables rolled back. */
  ghost function Import(c: Codec, db: Db, text: string, target: Option<string>): Option<(Db, Report)> {
    match Admitted(c, text, target)
    case None => None
    case Some((ws, d)) => ImportInto(db, ws, d)
  }

  ghost function ImportInto(db: Db, ws: string, d: Document): Option<(Db, Report)> {
    Merge(db, ws, Regroup(d, ws), d.links, Relocated(d.audit, ws))
  }

  /** The same call with `dryRun`: planned, not applied. */
  ghost function DryRun(c: Codec, db: Db, text: string, target: Option<string>): Option<Report> {
    match Admitted(c, text, target)
    case None => None
    case Some((ws, d)) => ForecastInto(db, ws, d)
  }

  ghost function ForecastInto(db: Db, ws: string, d: Document): Option<Report> {
    var es := Regroup(d, ws);
    if Plannable(db, es, d.links, Relocated(d.audit, ws)) then Some(ReportOf(db, ws, es)) else None
  }

  /** The target workspace and the document, once every check that needs no database has passed. */
  ghost function Admitted(c: Codec, text: string, target: Option<string>): Option<(string, Document)> {
    if !c.layout(text) then None
    else match Parse(c, text)
      case None => None
      case Some(d) =>
        var ws := if target.Some? then target.value else d.workspace;
        if c.workspaceOk(ws) && Acceptable(c, d, Regroup(d, ws)) then Some((ws, d)) else None
  }

  /** The transaction: plan against the tables, then insert what is missing. */
  ghost function Merge(db: Db, ws: string, es: seq<Entry>, ls: seq<Link>, aa: seq<Audit>): Option<(Db, Report)> {
    if Fits(db, es, ls, aa) then Some((Inserted(db, es, ls, aa), ReportOf(db, ws, es))) else None
  }

  // ---- export ----

  predicate LinkLess(a: LinkKey, b: LinkKey) {
    PairLess((a.from, a.to), (b.from, b.to)) || ((a.from, a.to) == (b.from, b.to) && StringLess(a.relation, b.relation))
  }

  lemma LinkOrder()
    ensures StrictTotal(LinkLess)
  {
    StringOrder();
    PairOrder();
  }

  predicate InWorkspace(db: Db, id: string, ws: string) {
    id in db.entries && db.entries[id].workspace == ws
  }

  /** SELECT … ORDER BY key: the rows of the given keys, ascending. */
  ghost function Listing<K(!new), R>(m: map<K, R>, keys: set<K>, less: (K, K) -> bool): seq<R>
    requires StrictTotal(less) && keys <= m.Keys
  {
    OrderedLists(keys, less);
    var ks := Ordered(keys, less);
    seq(|ks|, i requires 0 <= i < |ks| => assert ks[i] in Elements(ks); m[ks[i]])
  }

  function EntryKeys(db: Db, ws: string): set<string> {
    set id <- db.entries | db.entries[id].workspace == ws
  }

  function LinkKeys(db: Db, ws: string): set<LinkKey> {
    set k <- db.links | InWorkspace(db, k.from, ws) || InWorkspace(db, k.to, ws)
  }

  function AuditKeys(db: Db, ws: string): set<string> {
    set id <- db.audit |
      db.audit[id].workspace == ws
      || (db.audit[id].entryId.Some? && InWorkspace(db, db.audit[id].entryId.value, ws))
  }

  ghost function EntryRows(db: Db, ws: string): seq<Entry> {
    StringOrder();
    Listing(db.entries, EntryKeys(db, ws), StringLess)
  }

  ghost function LinkRows(db: Db, ws: string): seq<Link> {
    LinkOrder();
    Listing(db.links, LinkKeys(db, ws), LinkLess)
  }

  ghost function AuditRows(db: Db, ws: string): seq<Audit> {
    StringOrder();
    Listing(db.audit, AuditKeys(db, ws), StringLess)
  }

  /** Every check between reading the rows and printing them. */
  ghost predicate Exportable(c: Codec, ws: string, es: seq<Entry>, ls: seq<Link>, aa: seq<Audit>) {
    && c.workspaceOk(ws)
    && AllSound(c, es)
    && WellFounded(ReplacementsOf(Pairs(es)))
    && (forall l <- ls :: LinkInside(l, IdsOf(es)))
    && (forall a <- aa :: a.workspace == ws && AuditInside(a, IdsOf(es)))
    && AllAdmissible(c, [Manifest(ws, es, ls, aa)] + Body(es, ls, aa))
    && c.layout(Print(c, ws, es, ls, aa))
  }

  /** `exportWorkspaceInSnapshot`: None stands for a throw. */
  ghost function Export(c: Codec, db: Db, ws: string): Option<string> {
    var es, ls, aa := EntryRows(db, ws), LinkRows(db, ws), AuditRows(db, ws);
    if Exportable(c, ws, es, ls, aa) then Some(Print(c, ws, es, ls, aa)) else None
  }

  // ---- identities ----

  lemma QueueableHasNoNul(id: string)
    requires Queueable(id)
    ensures '\0' !in id
  {
  }

  /** Identifiers the queue admits cannot collide in a duplicate check. */
  lemma IdentitiesAreExact(s: (string, string), t: (string, string), k: Link, l: Link)
    ensures Queueable(s.0) && Queueable(t.0) && TagIdentity(s) == TagIdentity(t) ==>
              s == t
    ensures Queueable(k.key.from) && Queueable(l.key.from) && Queueable(k.key.to) && Queueable(l.key.to)
            && LinkIdentity(k) == LinkIdentity(l) ==>
              k.key == l.key
  {
    if Queueable(s.0) && Queueable(t.0) && TagIdentity(s) == TagIdentity(t) {
      SeparatorUnique(s.0, t.0, s.1, t.1);
    }
    if Queueable(k.key.from) && Queueable(l.key.from) && Queueable(k.key.to) && Queueable(l.key.to)
       && LinkIdentity(k) == LinkIdentity(l) {
      var x, y := k.key.to + "\0" + k.key.relation, l.key.to + "\0" + l.key.relation;
      assert LinkIdentity(k) == k.key.from + "\0" + x && LinkIdentity(l) == l.key.from + "\0" + y;
      SeparatorUnique(k.key.from, l.key.from, x, y);
      SeparatorUnique(k.key.to, l.key.to, k.key.relation, l.key.relation);
    }
  }

  /** Other identifiers can: two different tag records with one identity. */
  lemma IdentitiesCollideOutsideTheQueue()
    ensures TagIdentity(("a", "b\0c")) == TagIdentity(("a\0b", "c"))
    ensures !TagsOk([("a", "b\0c"), ("a\0b", "c")], {"a", "a\0b"})
  {
    var ts := [("a", "b\0c"), ("a\0b", "c")];
    assert TagIdentity(ts[0]) == "a\0b\0c" == TagIdentity(ts[1]);
  }

  /** Distinct identities are distinct keys. */
  lemma DistinctLinks(ls: seq<Link>)
    requires DistinctBy(ls, LinkIdentity)
    ensures DistinctBy(ls, KeyOf)
  {
    forall i, j | 0 <= i < j < |ls| ensures KeyOf(ls[i]) != KeyOf(ls[j]) {
      assert LinkIdentity(ls[i]) != LinkIdentity(ls[j]);
    }
  }
}
