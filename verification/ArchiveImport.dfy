/** `importWorkspace` as it runs: loops over records, sets of seen identities, tables written row by row. */
module ArchiveImport {
  import opened Options
  import opened Sequences
  import opened ArchiveFormat
  import opened Supersession
  import opened ArchiveStore

  lemma DistinctExtended<R, K>(front: seq<R>, r0: R, key: R -> K)
    ensures DistinctBy(front + [r0], key) <==> DistinctBy(front, key) && key(r0) !in KeySet(front, key)
  {
    var rows := front + [r0];
    if DistinctBy(rows, key) {
      forall i, j | 0 <= i < j < |front| ensures key(front[i]) != key(front[j]) {
        assert key(rows[i]) != key(rows[j]);
      }
      forall i | 0 <= i < |front| ensures key(front[i]) != key(r0) {
        assert key(rows[i]) != key(rows[|front|]);
      }
    }
    assert forall i | 0 <= i < |front| :: front[i] in front && key(front[i]) in KeySet(front, key);
  }

  /** A seen-set has as many elements as there were rows exactly when no key repeated. */
  lemma {:induction false} SeenAll<R, K>(rows: seq<R>, key: R -> K)
    ensures |KeySet(rows, key)| <= |rows|
    ensures |KeySet(rows, key)| == |rows| <==> DistinctBy(rows, key)
    decreases |rows|
  {
    if rows != [] {
      var last := |rows| - 1;
      var front, r0 := rows[..last], rows[last];
      SeenAll(front, key);
      assert rows == front + [r0];
      DistinctExtended(front, r0, key);
      assert KeySet(rows, key) == KeySet(front, key) + {key(r0)};
    }
  }

  lemma NewRowsStep<R, K>(m: map<K, R>, rows: seq<R>, key: R -> K, i: nat)
    requires i < |rows|
    ensures NewRows(m, rows[..i + 1], key)
            == NewRows(m, rows[..i], key) + if key(rows[i]) !in m then [rows[i]] else []
  {
    assert rows[..i + 1][..i] == rows[..i];
  }

  method GroupTags(tags: seq<(string, string)>) returns (groups: map<string, seq<string>>)
    ensures forall id :: (if id in groups then groups[id] else []) == TagsFor(tags, id)
  {
    groups := map[];
    var i := 0;
    while i < |tags|
      invariant 0 <= i <= |tags|
      invariant forall id :: (if id in groups then groups[id] else []) == TagsFor(tags[..i], id)
    {
      var (id, tag) := tags[i];
      var values := if id in groups then groups[id] else [];
      groups := groups[id := values + [tag]];
      assert tags[..i + 1][..i] == tags[..i];
      i := i + 1;
    }
    assert tags[..i] == tags;
  }

  /** The map over `importedEntry`; None when one of them throws. */
  method ImportedEntries(c: Codec, d: Document, ws: string) returns (r: Option<seq<Entry>>)
    ensures r == if AllSound(c, Regroup(d, ws)) then Some(Regroup(d, ws)) else None
  {
    var es := RegroupedEntries(d, ws);
    var i := 0;
    while i < |es|
      invariant 0 <= i <= |es| && forall j | 0 <= j < i :: Importable(c, es[j])
    {
      if !Importable(c, es[i]) {
        return None;
      }
      i := i + 1;
    }
    r := Some(es);
  }

  method RegroupedEntries(d: Document, ws: string) returns (es: seq<Entry>)
    ensures es == Regroup(d, ws)
  {
    var groups := GroupTags(d.tags);
    es := [];
    var i := 0;
    while i < |d.entries|
      invariant 0 <= i <= |d.entries| && Front(es, Regroup(d, ws), i)
    {
      var e := ImportedEntry(d, ws, groups, i);
      FrontGrows(es, Regroup(d, ws), e, i);
      es := es + [e];
      i := i + 1;
    }
    FrontIsAll(es, Regroup(d, ws));
  }

  ghost predicate Front<R>(front: seq<R>, all: seq<R>, i: nat) {
    i <= |all| && front == all[..i]
  }

  lemma FrontGrows<R>(front: seq<R>, all: seq<R>, r: R, i: nat)
    requires i < |all| && Front(front, all, i) && r == all[i]
    ensures Front(front + [r], all, i + 1)
  {
  }

  lemma FrontIsAll<R>(front: seq<R>, all: seq<R>)
    requires Front(front, all, |all|)
    ensures front == all
  {
  }

  method ImportedEntry(d: Document, ws: string, groups: map<string, seq<string>>, i: nat) returns (e: Entry)
    requires i < |d.entries| && forall id :: (if id in groups then groups[id] else []) == TagsFor(d.tags, id)
    ensures e == Regroup(d, ws)[i]
  {
    var raw := d.entries[i];
    e := raw.(tags := if raw.id in groups then groups[raw.id] else [], workspace := ws);
  }

  method ValidateTags(ts: seq<(string, string)>, ids: set<string>) returns (ok: bool)
    ensures ok == TagsOk(ts, ids)
  {
    var seen: set<string> := {};
    var i := 0;
    while i < |ts|
      invariant 0 <= i <= |ts|
      invariant seen == set t <- ts[..i] :: TagIdentity(t)
      invariant TagsOk(ts[..i], ids)
    {
      assert ts[i] in ts;
      if ts[i].0 !in ids { return false; }
      if TagIdentity(ts[i]) in seen {
        var t :| t in ts[..i] && TagIdentity(t) == TagIdentity(ts[i]);
        return false;
      }
      Extended(ts, i, TagIdentity);
      seen := seen + {TagIdentity(ts[i])};
      i := i + 1;
    }
    assert ts[..i] == ts;
    ok := true;
  }

  lemma Extended<R, K>(rows: seq<R>, i: nat, key: R -> K)
    requires i < |rows| && DistinctBy(rows[..i], key) && forall r <- rows[..i] :: key(r) != key(rows[i])
    ensures DistinctBy(rows[..i + 1], key) && rows[..i + 1] == rows[..i] + [rows[i]]
  {
    forall j | 0 <= j < i ensures key(rows[j]) != key(rows[i]) {
      assert rows[..i][j] in rows[..i];
    }
  }

  method ValidateLinks(ls: seq<Link>, ids: set<string>) returns (ok: bool)
    ensures ok == LinksOk(ls, ids)
  {
    var seen: set<string> := {};
    var i := 0;
    while i < |ls|
      invariant 0 <= i <= |ls|
      invariant seen == set l <- ls[..i] :: LinkIdentity(l)
      invariant LinksOk(ls[..i], ids)
    {
      assert ls[i] in ls;
      if !LinkInside(ls[i], ids) { return false; }
      if LinkIdentity(ls[i]) in seen {
        var l :| l in ls[..i] && LinkIdentity(l) == LinkIdentity(ls[i]);
        return false;
      }
      Extended(ls, i, LinkIdentity);
      seen := seen + {LinkIdentity(ls[i])};
      i := i + 1;
    }
    assert ls[..i] == ls;
    ok := true;
  }

  method ValidateAudit(aa: seq<Audit>, ids: set<string>) returns (ok: bool)
    ensures ok == AuditOk(aa, ids)
  {
    var seen: set<string> := {};
    var i := 0;
    while i < |aa|
      invariant 0 <= i <= |aa|
      invariant seen == set a <- aa[..i] :: EventId(a)
      invariant AuditOk(aa[..i], ids)
    {
      assert aa[i] in aa;
      if !AuditInside(aa[i], ids) { return false; }
      if EventId(aa[i]) in seen {
        var a :| a in aa[..i] && EventId(a) == EventId(aa[i]);
        return false;
      }
      Extended(aa, i, EventId);
      seen := seen + {EventId(aa[i])};
      i := i + 1;
    }
    assert aa[..i] == aa;
    ok := true;
  }

  /** The checks of the call that need no database. */
  method Admit(c: Codec, text: string, target: Option<string>) returns (r: Option<(string, Document, seq<Entry>)>)
    ensures r.None? <==> Admitted(c, text, target).None?
    ensures r.Some? ==>
              Admitted(c, text, target) == Some((r.value.0, r.value.1)) && r.value.2 == Regroup(r.value.1, r.value.0)
  {
    if !c.layout(text) { return None; }
    var parsed := ParseImport(c, text);
    if parsed.None? { return None; }
    var d := parsed.value;
    var ws := if target.Some? then target.value else d.workspace;
    if !c.workspaceOk(ws) { return None; }
    var entries := ImportedEntries(c, d, ws);
    if entries.None? { return None; }
    var es := entries.value;
    var ok := Consistent(c, d, es);
    if !ok { return None; }
    r := Some((ws, d, es));
  }

  method DistinctEntries(es: seq<Entry>) returns (ok: bool)
    ensures ok == (DistinctBy(es, EntryId) && DistinctBy(es, HashOf))
  {
    SeenAll(es, EntryId);
    SeenAll(es, HashOf);
    ok := |KeySet(es, EntryId)| == |es| && |KeySet(es, HashOf)| == |es|;
  }

  method ValidateRelated(d: Document, ids: set<string>) returns (ok: bool)
    ensures ok == RelatedOk(d, ids)
  {
    ok := ValidateTags(d.tags, ids);
    if !ok { return; }
    ok := ValidateLinks(d.links, ids);
    if !ok { return; }
    ok := ValidateAudit(d.audit, ids);
  }

  method Consistent(c: Codec, d: Document, es: seq<Entry>) returns (ok: bool)
    requires AllSound(c, es)
    ensures ok == Acceptable(c, d, es)
  {
    ok := DistinctEntries(es);
    if !ok { return; }
    var verdict, _ := ValidateSupersession(Pairs(es));
    if !verdict.Accepted? { return false; }
    ok := ValidateRelated(d, IdsOf(es));
  }

  /** `planEntryImport`: classify every entry, then compare the duplicates in full. */
  method PlanEntries(db: Db, es: seq<Entry>, ws: string) returns (r: Option<(seq<Entry>, nat)>)
    requires DistinctBy(es, EntryId) && forall e <- es :: e.workspace == ws
    ensures r.Some? <==> forall e <- es :: EntryFits(db, e)
    ensures r.Some? ==>
              r.value.0 == NewRows(db.entries, es, EntryId) && r.value.1 == |es| - |r.value.0|
  {
    assert forall j | 0 <= j < |es| :: es[j] in es;
    var ok, missing, duplicateIds := Classify(db, es, ws);
    if !ok {
      return None;
    }
    var k := 0;
    while k < |es|
      invariant 0 <= k <= |es|
      invariant forall e <- es[..k] :: e.id in db.entries ==> db.entries[e.id] == e
    {
      assert es[k] in es;
      if es[k].id in duplicateIds && db.entries[es[k].id] != es[k] {
        return None;
      }
      k := k + 1;
    }
    assert es[..k] == es;
    KnownIdsCount(db.entries, es, |es|);
    r := Some((missing, |duplicateIds|));
  }

  method Classify(db: Db, es: seq<Entry>, ws: string) returns (ok: bool, missing: seq<Entry>, duplicateIds: set<string>)
    requires DistinctBy(es, EntryId) && forall j | 0 <= j < |es| :: es[j].workspace == ws
    ensures !ok ==> exists e <- es :: !EntryFits(db, e)
    ensures ok ==> forall j | 0 <= j < |es| :: es[j].id !in db.entries ==> HashKey(es[j]) !in db.hashes
    ensures ok ==> missing == NewRows(db.entries, es, EntryId)
    ensures ok ==> duplicateIds == KnownIds(db.entries, es)
  {
    missing, duplicateIds := [], {};
    var i := 0;
    while i < |es|
      invariant 0 <= i <= |es|
      invariant missing == NewRows(db.entries, es[..i], EntryId)
      invariant duplicateIds == KnownIds(db.entries, es[..i])
      invariant forall j | 0 <= j < i :: es[j].id !in db.entries ==> HashKey(es[j]) !in db.hashes
    {
      var e := es[i];
      NewRowsStep(db.entries, es, EntryId, i);
      KnownIdsStep(db.entries, es, i);
      if e.id in db.entries {
        if db.entries[e.id].workspace != ws || db.entries[e.id].contentHash != e.contentHash {
          assert es[i] in es && !EntryFits(db, es[i]);
          return false, missing, duplicateIds;
        }
        duplicateIds := duplicateIds + {e.id};
      } else {
        if (ws, e.contentHash) in db.hashes {
          assert es[i] in es && !EntryFits(db, es[i]);
          return false, missing, duplicateIds;
        }
        missing := missing + [e];
      }
      i := i + 1;
    }
    assert es[..i] == es;
    ok := true;
  }

  method PlanLinks(db: Db, ls: seq<Link>) returns (r: Option<seq<Link>>)
    ensures r.Some? <==> forall l <- ls :: LinkFits(db, l)
    ensures r.Some? ==> r.value == NewRows(db.links, ls, KeyOf)
  {
    var missing: seq<Link> := [];
    var i := 0;
    while i < |ls|
      invariant 0 <= i <= |ls|
      invariant missing == NewRows(db.links, ls[..i], KeyOf)
      invariant forall l <- ls[..i] :: LinkFits(db, l)
    {
      assert ls[i] in ls;
      NewRowsStep(db.links, ls, KeyOf, i);
      if ls[i].key in db.links {
        if db.links[ls[i].key] != ls[i] {
          return None;
        }
      } else {
        missing := missing + [ls[i]];
      }
      i := i + 1;
    }
    assert ls[..i] == ls;
    r := Some(missing);
  }

  method PlanAudit(db: Db, aa: seq<Audit>) returns (r: Option<seq<Audit>>)
    ensures r.Some? <==> forall a <- aa :: AuditFits(db, a)
    ensures r.Some? ==> r.value == NewRows(db.audit, aa, EventId)
  {
    var missing: seq<Audit> := [];
    var i := 0;
    while i < |aa|
      invariant 0 <= i <= |aa|
      invariant missing == NewRows(db.audit, aa[..i], EventId)
      invariant forall a <- aa[..i] :: AuditFits(db, a)
    {
      assert aa[i] in aa;
      NewRowsStep(db.audit, aa, EventId, i);
      if aa[i].eventId in db.audit {
        if db.audit[aa[i].eventId] != aa[i] {
          return None;
        }
      } else {
        missing := missing + [aa[i]];
      }
      i := i + 1;
    }
    assert aa[..i] == aa;
    r := Some(missing);
  }

  function KnownIds(m: map<string, Entry>, es: seq<Entry>): set<string> {
    set e <- es | e.id in m :: e.id
  }

  lemma KnownIdsStep(m: map<string, Entry>, es: seq<Entry>, i: nat)
    requires i < |es| && DistinctBy(es, EntryId)
    ensures KnownIds(m, es[..i + 1]) == KnownIds(m, es[..i]) + if es[i].id in m then {es[i].id} else {}
    ensures es[i].id !in KnownIds(m, es[..i])
  {
    assert es[..i + 1] == es[..i] + [es[i]];
    forall e <- es[..i] ensures e.id != es[i].id {
      var j :| 0 <= j < i && es[j] == e;
      assert EntryId(es[j]) != EntryId(es[i]);
    }
  }

  lemma KnownIdsGrow(m: map<string, Entry>, es: seq<Entry>, i: nat)
    requires i < |es| && DistinctBy(es, EntryId)
    ensures |KnownIds(m, es[..i + 1])| == |KnownIds(m, es[..i])| + if es[i].id in m then 1 else 0
  {
    KnownIdsStep(m, es, i);
    var before, after := KnownIds(m, es[..i]), KnownIds(m, es[..i + 1]);
    if es[i].id in m { assert after == before + {es[i].id}; } else { assert after == before; }
  }

  lemma {:induction false} KnownIdsCount(m: map<string, Entry>, es: seq<Entry>, i: nat)
    requires i <= |es| && DistinctBy(es, EntryId)
    ensures |KnownIds(m, es[..i])| == i - |NewRows(m, es[..i], EntryId)|
  {
    if i > 0 {
      var k: nat := i - 1;
      KnownIdsCount(m, es, k);
      KnownIdsGrow(m, es, k);
      NewRowsStep(m, es, EntryId, k);
      assert |NewRows(m, es[..i], EntryId)| == |NewRows(m, es[..k], EntryId)| + if es[k].id in m then 0 else 1;
    }
  }

  method MakePlan(db: Db, ws: string, es: seq<Entry>, ls: seq<Link>, aa: seq<Audit>) returns (r: Option<Plan>)
    requires DistinctBy(es, EntryId) && forall e <- es :: e.workspace == ws
    ensures r == if Plannable(db, es, ls, aa) then Some(PlanOf(db, es, ls, aa)) else None
  {
    var plan := PlanEntries(db, es, ws);
    if plan.None? { return None; }
    var missingLinks := PlanLinks(db, ls);
    if missingLinks.None? { return None; }
    var missingAudit := PlanAudit(db, aa);
    if missingAudit.None? { return None; }
    r := Some(Plan(plan.value.0, plan.value.1, missingLinks.value, missingAudit.value));
  }

  /** A dry run only plans. */
  method Forecast(db: Db, ws: string, d: Document, es: seq<Entry>) returns (r: Option<Report>)
    requires es == Regroup(d, ws) && DistinctBy(es, EntryId) && forall e <- es :: e.workspace == ws
    ensures r == ForecastInto(db, ws, d)
  {
    var planned := MakePlan(db, ws, es, d.links, Relocated(d.audit, ws));
    if planned.None? { return None; }
    r := Some(Report(ws, |es|, |planned.value.entries|, planned.value.duplicates));
  }

  /** The four tables, changed in place by one import transaction. */
  class Store {
    var entries: map<string, Entry>
    var hashes: map<(string, string), string>
    var links: map<LinkKey, Link>
    var audit: map<string, Audit>

    function Tables(): Db
      reads this
    {
      Db(entries, hashes, links, audit)
    }

    constructor ()
      ensures Tables() == EMPTY
    {
      entries, hashes, links, audit := map[], map[], map[], map[];
    }

    /** Insert as candidates, queueing each; false when the queue refuses an identifier. */
    method InsertCandidates(rows: seq<Entry>) returns (ok: bool)
      modifies this`entries, this`hashes
      ensures ok == forall e <- rows :: Queueable(e.id)
      ensures ok ==>
                && entries == Put(old(entries), rows, EntryId, Draft)
                && hashes == Put(old(hashes), rows, HashKey, EntryId)
    {
      var i := 0;
      while i < |rows|
        invariant 0 <= i <= |rows|
        invariant entries == Put(old(entries), rows[..i], EntryId, Draft)
        invariant hashes == Put(old(hashes), rows[..i], HashKey, EntryId)
        invariant forall e <- rows[..i] :: Queueable(e.id)
      {
        var e := rows[i];
        assert rows[..i + 1][..i] == rows[..i];
        entries := entries[e.id := Draft(e)];
        hashes := hashes[(e.workspace, e.contentHash) := e.id];
        if !Queueable(e.id) {
          assert e in rows;
          return false;
        }
        i := i + 1;
      }
      assert rows[..i] == rows;
      ok := true;
    }

    method InsertLinks(rows: seq<Link>)
      modifies this`links
      ensures links == Put(old(links), rows, KeyOf, Itself)
    {
      var i := 0;
      while i < |rows|
        invariant 0 <= i <= |rows| && links == Put(old(links), rows[..i], KeyOf, Itself)
      {
        assert rows[..i + 1][..i] == rows[..i];
        links := links[rows[i].key := rows[i]];
        i := i + 1;
      }
      assert rows[..i] == rows;
    }

    method InsertAudit(rows: seq<Audit>)
      modifies this`audit
      ensures audit == Put(old(audit), rows, EventId, Itself)
    {
      var i := 0;
      while i < |rows|
        invariant 0 <= i <= |rows| && audit == Put(old(audit), rows[..i], EventId, Itself)
      {
        assert rows[..i + 1][..i] == rows[..i];
        audit := audit[rows[i].eventId := rows[i]];
        i := i + 1;
      }
      assert rows[..i] == rows;
    }

    /** The insertions of one transaction: on a refusal the tables are rolled back. */
    method InsertPlanned(plan: Plan, ws: string) returns (ok: bool)
      requires DistinctBy(plan.entries, EntryId) && forall e <- plan.entries :: e.workspace == ws && e.revision == 1
      modifies this
      ensures ok == forall e <- plan.entries :: Queueable(e.id)
      ensures Tables() == if ok then InsertedPlan(old(Tables()), plan) else old(Tables())
    {
      var db := Tables();
      ok := InsertCandidates(plan.entries);
      if !ok {
        entries, hashes := db.entries, db.hashes;
        return;
      }
      ApplyLifecycle(db.entries, plan.entries, ws);
      InsertLinks(plan.links);
      InsertAudit(plan.audit);
    }

    method Apply(ws: string, d: Document, es: seq<Entry>) returns (r: Option<Report>)
      requires es == Regroup(d, ws) && DistinctBy(es, EntryId) && forall e <- es :: e.workspace == ws && e.revision == 1
      modifies this
      ensures match ImportInto(old(Tables()), ws, d)
              case None => r == None && Tables() == old(Tables())
              case Some((db', report)) => r == Some(report) && Tables() == db'
    {
      var planned := MakePlan(Tables(), ws, es, d.links, Relocated(d.audit, ws));
      if planned.None? { return None; }
      NewRowsFacts(entries, es, EntryId);
      var ok := InsertPlanned(planned.value, ws);
      r := if ok then Some(Report(ws, |es|, |planned.value.entries|, planned.value.duplicates)) else None;
    }

    /** `importWorkspace`, dry or not. */
    method ImportWorkspace(c: Codec, text: string, target: Option<string>, dryRun: bool) returns (r: Option<Report>)
      modifies this
      ensures dryRun ==> Tables() == old(Tables()) && r == DryRun(c, Tables(), text, target)
      ensures !dryRun ==>
                match Import(c, old(Tables()), text, target)
                case None => r == None && Tables() == old(Tables())
                case Some((db', report)) => r == Some(report) && Tables() == db'
    {
      var admitted := Admit(c, text, target);
      if admitted.None? { return None; }
      var (ws, d, es) := admitted.value;
      AdmittedFacts(c, text, target);
      if dryRun {
        r := Forecast(Tables(), ws, d, es);
      } else {
        r := Apply(ws, d, es);
      }
    }

    /** The second pass: UPDATE status, superseded_by, verified_at of the inserted candidates. */
    method ApplyLifecycle(ghost before: map<string, Entry>, rows: seq<Entry>, ws: string)
      requires DistinctBy(rows, EntryId) && forall e <- rows :: e.workspace == ws && e.revision == 1
      requires entries == Put(before, rows, EntryId, Draft)
      modifies this`entries
      ensures entries == Put(before, rows, EntryId, Itself)
    {
      ghost var drafts := entries;
      var i := 0;
      while i < |rows|
        invariant 0 <= i <= |rows| && entries == Put(drafts, rows[..i], EntryId, Itself)
      {
        var e := rows[i];
        NotYetOverwritten(before, rows, EntryId, Draft, Itself, i);
        assert e in rows && rows[..i + 1][..i] == rows[..i];
        if e.id in entries && entries[e.id].workspace == ws && entries[e.id].revision == 1 {
          entries := entries[e.id := entries[e.id].(status := e.status, supersededBy := e.supersededBy,
                                                    verifiedAt := e.verifiedAt)];
        }
        i := i + 1;
      }
      assert rows[..i] == rows;
      Overwritten(before, rows, EntryId, Draft, Itself);
    }
  }

  lemma AdmittedFacts(c: Codec, text: string, target: Option<string>)
    requires Admitted(c, text, target).Some?
    ensures var (ws, d) := Admitted(c, text, target).value;
            DistinctBy(Regroup(d, ws), EntryId) && forall e <- Regroup(d, ws) :: e.workspace == ws && e.revision == 1
  {
    var (ws, d) := Admitted(c, text, target).value;
    assert forall i | 0 <= i < |Regroup(d, ws)| :: Importable(c, Regroup(d, ws)[i]);
  }

  lemma NewRowsFacts<R, K>(m: map<K, R>, rows: seq<R>, key: R -> K)
    requires DistinctBy(rows, key)
    ensures DistinctBy(NewRows(m, rows, key), key) && forall r <- NewRows(m, rows, key) :: r in rows
  {
    SelectMembers(rows, (r: R) => key(r) !in m);
    SelectDistinct(rows, (r: R) => key(r) !in m, key);
  }

  /** Before its own overwrite a row is still as first put. */
  lemma NotYetOverwritten<R, K, V>(m: map<K, V>, rows: seq<R>, key: R -> K, first: R -> V, second: R -> V, i: nat)
    requires DistinctBy(rows, key) && i < |rows|
    ensures var p := Put(Put(m, rows, key, first), rows[..i], key, second);
            key(rows[i]) in p && p[key(rows[i])] == first(rows[i])
  {
    var front := rows[..i];
    PutLookup(m, rows, key, first);
    var q := Put(m, rows, key, first);
    PutLookup(q, front, key, second);
    assert rows[i] in rows && key(rows[i]) in q;
    forall r <- front ensures key(r) != key(rows[i]) {
      var j :| 0 <= j < i && rows[j] == r;
    }
  }

  /** Putting the same rows twice leaves the second values. */
  lemma Overwritten<R, K, V>(m: map<K, V>, rows: seq<R>, key: R -> K, first: R -> V, second: R -> V)
    requires DistinctBy(rows, key)
    ensures Put(Put(m, rows, key, first), rows, key, second) == Put(m, rows, key, second)
  {
    var p := Put(m, rows, key, first);
    PutLookup(m, rows, key, first);
    PutLookup(p, rows, key, second);
    PutLookup(m, rows, key, second);
    var a, b := Put(p, rows, key, second), Put(m, rows, key, second);
    assert a.Keys == b.Keys;
    forall k <- a ensures a[k] == b[k] {
      if HasKey(rows, key, k) { var r :| r in rows && key(r) == k; }
    }
  }

  /** An entry as first inserted: a candidate that refers to no other entry, so that no foreign key can fail yet. */
  function Draft(e: Entry): (r: Entry)
    ensures r.status == Candidate && r.supersededBy == None && r.verifiedAt == None
    ensures r.(status := e.status, supersededBy := e.supersededBy, verifiedAt := e.verifiedAt) == e
  {
    e.(status := Candidate, supersededBy := None, verifiedAt := None)
  }
}
