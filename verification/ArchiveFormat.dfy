/**
  The workspace archive as text: one canonical JSON record per line, a checksum line
  first (src/commands/export.ts:242-267, src/commands/import.ts:371-443).
 */
module ArchiveFormat {
  import opened Options

  // ---- lines ----

  /** Array.join('\n') */
  function Join(lines: seq<string>): string {
    if lines == [] then "" else if |lines| == 1 then lines[0] else lines[0] + "\n" + Join(lines[1..])
  }

  /** String.split('\n') */
  function Split(text: string): (lines: seq<string>)
    ensures lines != []
  {
    if text == [] then [""]
    else
      var rest := Split(text[1..]);
      if text[0] == '\n' then [""] + rest else [[text[0]] + rest[0]] + rest[1..]
  }

  predicate OneLine(s: string) {
    '\n' !in s
  }

  lemma {:induction false} SplitOneLine(line: string)
    requires OneLine(line)
    ensures Split(line) == [line]
  {
    if line != [] {
      SplitOneLine(line[1..]);
      assert [line[0]] + line[1..] == line;
    }
  }

  lemma {:induction false} SplitFirst(line: string, rest: string)
    requires OneLine(line)
    ensures Split(line + "\n" + rest) == [line] + Split(rest)
  {
    var text := line + "\n" + rest;
    if line == [] {
      assert text[1..] == rest;
    } else {
      assert text[1..] == line[1..] + "\n" + rest;
      SplitFirst(line[1..], rest);
      assert [line[0]] + line[1..] == line;
    }
  }

  lemma {:induction false} SplitJoin(lines: seq<string>)
    requires lines != [] && forall l <- lines :: OneLine(l)
    ensures Split(Join(lines)) == lines
  {
    if |lines| == 1 {
      SplitOneLine(lines[0]);
    } else {
      SplitFirst(lines[0], Join(lines[1..]));
      SplitJoin(lines[1..]);
    }
  }

  // ---- records ----

  datatype Status = Candidate | Verified | Superseded | OtherStatus(name: string)

  /** Kind, title, body, summary, scope and provenance travel together. */
  datatype Content = Content(kind: string, title: string, body: string, summary: Option<string>,
                             scope: string, provenance: string)

  datatype Entry = Entry(id: string, workspace: string, content: Content, status: Status,
                         trustLevel: string, confidence: int, contentHash: string, revision: int,
                         supersededBy: Option<string>, createdBy: string,
                         createdAt: nat, updatedAt: nat, verifiedAt: Option<nat>, tags: seq<string>)

  datatype LinkKey = LinkKey(from: string, to: string, relation: string)
  datatype Link = Link(key: LinkKey, createdAt: nat, createdBy: string)

  datatype Audit = Audit(eventId: string, entryId: Option<string>, workspace: string,
                         operation: string, actor: string, details: string, createdAt: nat)

  datatype Counts = Counts(entries: int, tags: int, links: int, audit: int)

  datatype Record =
    | ChecksumLine(sha256: string)
    | ManifestLine(workspace: string, format: string, version: int, counts: Counts)
    | EntryLine(entry: Entry)     // without its tags
    | TagLine(entryId: string, tag: string)
    | LinkLine(link: Link)
    | AuditLine(event: Audit)
    | OtherLine(kind: string)

  /** The foreign parts: canonical JSON, SHA-256, the field and secret validators of a line. */
  datatype Codec = Codec(
    encode: Record -> string,
    decode: string -> Option<Record>,
    sha256: string -> string,
    contentHash: (Content, seq<string>) -> string,
    admissible: Record -> bool,
    valid: Entry -> bool,        // the ranges validateRecordInput demands of an entry's fields
    workspaceOk: string -> bool,
    layout: string -> bool)      // validateWorkspaceArchiveByteLayout

  ghost predicate Lawful(c: Codec) {
    && (forall r :: c.decode(c.encode(r)) == Some(r))
    && (forall r :: c.encode(r) != "" && OneLine(c.encode(r)))
  }

  datatype Document = Document(workspace: string, entries: seq<Entry>, tags: seq<(string, string)>,
                               links: seq<Link>, audit: seq<Audit>)

  const FORMAT := "kiokuko-jsonl"

  // ---- printing ----

  function EntryLines(es: seq<Entry>): seq<Record> {
    seq(|es|, i requires 0 <= i < |es| => EntryLine(es[i].(tags := [])))
  }

  function TagLines(ts: seq<(string, string)>): seq<Record> {
    seq(|ts|, i requires 0 <= i < |ts| => TagLine(ts[i].0, ts[i].1))
  }

  function LinkLines(ls: seq<Link>): seq<Record> {
    seq(|ls|, i requires 0 <= i < |ls| => LinkLine(ls[i]))
  }

  function AuditLines(aa: seq<Audit>): seq<Record> {
    seq(|aa|, i requires 0 <= i < |aa| => AuditLine(aa[i]))
  }

  /** flatMap of the entries' tags */
  function TagsOf(es: seq<Entry>): seq<(string, string)> {
    if es == [] then [] else TagPairs(es[0].id, es[0].tags) + TagsOf(es[1..])
  }

  function TagPairs(id: string, tags: seq<string>): seq<(string, string)> {
    seq(|tags|, i requires 0 <= i < |tags| => (id, tags[i]))
  }

  function Body(es: seq<Entry>, ls: seq<Link>, aa: seq<Audit>): seq<Record> {
    EntryLines(es) + TagLines(TagsOf(es)) + LinkLines(ls) + AuditLines(aa)
  }

  function Manifest(workspace: string, es: seq<Entry>, ls: seq<Link>, aa: seq<Audit>): Record {
    ManifestLine(workspace, FORMAT, 1, Counts(|es|, |TagsOf(es)|, |ls|, |aa|))
  }

  function Encoded(c: Codec, records: seq<Record>): seq<string> {
    seq(|records|, i requires 0 <= i < |records| => c.encode(records[i]))
  }

  /** The archive text of a workspace snapshot. */
  function Print(c: Codec, workspace: string, es: seq<Entry>, ls: seq<Link>, aa: seq<Audit>): string {
    var payload := Join(Encoded(c, [Manifest(workspace, es, ls, aa)] + Body(es, ls, aa))) + "\n";
    c.encode(ChecksumLine(c.sha256(payload))) + "\n" + payload
  }

  // ---- parsing ----

  function ParseLine(c: Codec, line: string): Option<Record> {
    match c.decode(line)
    case None => None
    case Some(r) => if c.encode(r) == line then Some(r) else None
  }

  /** One iteration of the dispatch loop; None stands for a throw. */
  function Add(c: Codec, d: Document, r: Record): Option<Document> {
    if !c.admissible(r) then None
    else match r
      case EntryLine(e) =>
        if e.workspace == d.workspace && e.revision == 1 && e.tags == []
        then Some(d.(entries := d.entries + [e])) else None
      case TagLine(id, tag) => Some(d.(tags := d.tags + [(id, tag)]))
      case LinkLine(l) => Some(d.(links := d.links + [l]))
      case AuditLine(a) => if a.workspace == d.workspace then Some(d.(audit := d.audit + [a])) else None
      case _ => None
  }

  function Collect(c: Codec, d: Document, lines: seq<string>): Option<Document>
    decreases |lines|
  {
    if lines == [] then Some(d)
    else match ParseLine(c, lines[0])
      case None => None
      case Some(r) =>
        match Add(c, d, r)
        case None => None
        case Some(d') => Collect(c, d', lines[1..])
  }

  function CountsOf(d: Document): Counts {
    Counts(|d.entries|, |d.tags|, |d.links|, |d.audit|)
  }

  function Parse(c: Codec, text: string): Option<Document> {
    if text == [] || text[|text| - 1] != '\n' then None
    else
      var lines := Split(text[..|text| - 1]);
      if |lines| < 2 || "" in lines then None
      else
        var checksum := ParseLine(c, lines[0]);
        if checksum.None? || !checksum.value.ChecksumLine? then None
        else if c.sha256(Join(lines[1..]) + "\n") != checksum.value.sha256 then None
        else ParsePayload(c, lines[1..])
  }

  function ParsePayload(c: Codec, lines: seq<string>): Option<Document>
    requires lines != []
  {
    var manifest := ParseLine(c, lines[0]);
    if manifest.None? || !manifest.value.ManifestLine? then None
    else
      var m := manifest.value;
      if m.format != FORMAT || m.version != 1 || !c.admissible(m) then None
      else
        var d := Collect(c, Document(m.workspace, [], [], [], []), lines[1..]);
        if d.Some? && CountsOf(d.value) == m.counts then d else None
  }

  /** `parseImport`, with its dispatch loop. */
  method ParseImport(c: Codec, text: string) returns (r: Option<Document>)
    ensures r == Parse(c, text)
    ensures Lawful(c) ==> forall d :: r == Some(d) <==> Archives(c, text, d)
  {
    if Lawful(c) { forall d { ParseIff(c, text, d); } }
    if text == [] || text[|text| - 1] != '\n' { return None; }
    var lines := Split(text[..|text| - 1]);
    if |lines| < 2 || "" in lines { return None; }
    var checksum := ParseLine(c, lines[0]);
    if checksum.None? || !checksum.value.ChecksumLine? { return None; }
    if c.sha256(Join(lines[1..]) + "\n") != checksum.value.sha256 { return None; }
    var payload := lines[1..];
    var manifest := ParseLine(c, payload[0]);
    if manifest.None? || !manifest.value.ManifestLine? { return None; }
    var m := manifest.value;
    if m.format != FORMAT || m.version != 1 || !c.admissible(m) { return None; }
    var d := Document(m.workspace, [], [], [], []);
    var i := 1;
    while i < |payload|
      invariant 1 <= i <= |payload|
      invariant Collect(c, d, payload[i..]) == Collect(c, Document(m.workspace, [], [], [], []), payload[1..])
    {
      assert payload[i..][0] == payload[i] && payload[i..][1..] == payload[i + 1..];
      var line := ParseLine(c, payload[i]);
      if line.None? { return None; }
      var next := Add(c, d, line.value);
      if next.None? { return None; }
      d := next.value;
      i := i + 1;
    }
    if CountsOf(d) != m.counts { return None; }
    r := Some(d);
  }

  // ---- which texts are archives ----

  /** The records of one kind, in order. */
  function Project<T>(records: seq<Record>, pick: Record -> Option<T>): seq<T> {
    if records == [] then [] else Picked(pick(records[0])) + Project(records[1..], pick)
  }

  function Picked<T>(o: Option<T>): seq<T> {
    if o.Some? then [o.value] else []
  }

  function EntryOf(r: Record): Option<Entry> {
    if r.EntryLine? then Some(r.entry) else None
  }

  function TagOf(r: Record): Option<(string, string)> {
    if r.TagLine? then Some((r.entryId, r.tag)) else None
  }

  function LinkOf(r: Record): Option<Link> {
    if r.LinkLine? then Some(r.link) else None
  }

  function AuditOf(r: Record): Option<Audit> {
    if r.AuditLine? then Some(r.event) else None
  }

  function DocumentOf(workspace: string, records: seq<Record>): Document {
    Document(workspace, Project(records, EntryOf), Project(records, TagOf), Project(records, LinkOf), Project(records, AuditOf))
  }

  /** A record an archive of the workspace may contain after its manifest. */
  predicate Belongs(c: Codec, workspace: string, r: Record) {
    && c.admissible(r)
    && (r.EntryLine? || r.TagLine? || r.LinkLine? || r.AuditLine?)
    && (r.EntryLine? ==> r.entry.workspace == workspace && r.entry.revision == 1 && r.entry.tags == [])
    && (r.AuditLine? ==> r.event.workspace == workspace)
  }

  /** The text whose first line is the checksum of the lines of the records. */
  function Sealed(c: Codec, records: seq<Record>): string {
    var payload := Join(Encoded(c, records)) + "\n";
    c.encode(ChecksumLine(c.sha256(payload))) + "\n" + payload
  }

  /**
    The text is an archive with these records: a checksum line of its own payload, a manifest of this
    format and version that counts the records of each kind, and records that belong to the workspace.
   */
  ghost predicate IsArchive(c: Codec, text: string, records: seq<Record>, d: Document) {
    && text == Sealed(c, records)
    && records != [] && c.admissible(records[0]) && (forall r <- records[1..] :: Belongs(c, d.workspace, r))
    && d == DocumentOf(d.workspace, records[1..])
    && records[0] == ManifestLine(d.workspace, FORMAT, 1, CountsOf(d))
  }

  lemma {:induction false} JoinSplit(text: string)
    ensures Join(Split(text)) == text
  {
    if text != [] {
      JoinSplit(text[1..]);
      var rest := Split(text[1..]);
      if text[0] == '\n' {
        assert ([""] + rest)[1..] == rest;
      } else {
        var first := [text[0]] + rest[0];
        assert ([first] + rest[1..])[1..] == rest[1..];
        assert text == [text[0]] + text[1..];
      }
    }
  }

  /** Collecting the lines of records succeeds exactly when all belong, and lists them by kind. */
  lemma {:induction false} CollectEncoded(c: Codec, d: Document, records: seq<Record>)
    requires Lawful(c)
    ensures Collect(c, d, Encoded(c, records)) ==
            if forall r <- records :: Belongs(c, d.workspace, r) then Some(Extended(d, records)) else None
    decreases |records|
  {
    if records != [] {
      var r, rest := records[0], records[1..];
      assert Encoded(c, records)[0] == c.encode(r) && Encoded(c, records)[1..] == Encoded(c, rest);
      assert (forall x <- records :: Belongs(c, d.workspace, x))
          <==> Belongs(c, d.workspace, r) && forall x <- rest :: Belongs(c, d.workspace, x)
      by { assert records == [r] + rest; }
      AddBelongs(c, d, r);
      CollectEncoded(c, AddedTo(d, r), rest);
      ExtendedStep(d, records);
    } else {
      assert Extended(d, records) == d;
    }
  }

  /** A document with the records of each kind appended. */
  function Extended(d: Document, records: seq<Record>): Document {
    var more := DocumentOf(d.workspace, records);
    Document(d.workspace, d.entries + more.entries, d.tags + more.tags, d.links + more.links, d.audit + more.audit)
  }

  lemma AddBelongs(c: Codec, d: Document, r: Record)
    ensures Add(c, d, r) == if Belongs(c, d.workspace, r) then Some(AddedTo(d, r)) else None
  {
    assert d.entries + [] == d.entries && d.tags + [] == d.tags && d.links + [] == d.links && d.audit + [] == d.audit;
    match r
    case EntryLine(_) =>
    case TagLine(_, _) =>
    case LinkLine(_) =>
    case AuditLine(_) =>
    case _ =>
  }

  function AddedTo(d: Document, r: Record): Document {
    Document(d.workspace, d.entries + Picked(EntryOf(r)), d.tags + Picked(TagOf(r)), d.links + Picked(LinkOf(r)),
             d.audit + Picked(AuditOf(r)))
  }

  lemma ProjectStep<T>(xs: seq<T>, records: seq<Record>, pick: Record -> Option<T>)
    requires records != []
    ensures xs + Project(records, pick) == xs + Picked(pick(records[0])) + Project(records[1..], pick)
  {
  }

  lemma ExtendedStep(d: Document, records: seq<Record>)
    requires records != []
    ensures Extended(AddedTo(d, records[0]), records[1..]) == Extended(d, records)
  {
    ProjectStep(d.entries, records, EntryOf);
    ProjectStep(d.tags, records, TagOf);
    ProjectStep(d.links, records, LinkOf);
    ProjectStep(d.audit, records, AuditOf);
  }

  /** Lines that are collected are lines of records. */
  lemma {:induction false} CollectedLines(c: Codec, d: Document, lines: seq<string>) returns (records: seq<Record>)
    requires Collect(c, d, lines).Some?
    ensures lines == Encoded(c, records)
    decreases |lines|
  {
    if lines == [] {
      records := [];
    } else {
      var r := ParseLine(c, lines[0]).value;
      var rest := CollectedLines(c, Add(c, d, r).value, lines[1..]);
      records := [r] + rest;
      assert Encoded(c, records)[1..] == Encoded(c, rest);
    }
  }

  /** Splitting a sealed text gives back the checksum line and the lines of the records. */
  lemma SealedLines(c: Codec, records: seq<Record>)
    requires Lawful(c) && records != []
    ensures var text, payload := Sealed(c, records), Encoded(c, records);
            && text != [] && text[|text| - 1] == '\n'
            && Split(text[..|text| - 1]) == [c.encode(ChecksumLine(c.sha256(Join(payload) + "\n")))] + payload
            && "" !in Split(text[..|text| - 1])
  {
    var text, payload := Sealed(c, records), Encoded(c, records);
    var first := c.encode(ChecksumLine(c.sha256(Join(payload) + "\n")));
    assert text[..|text| - 1] == first + "\n" + Join(payload);
    SplitFirst(first, Join(payload));
    SplitJoin(payload);
  }

  lemma PayloadOfRecords(c: Codec, records: seq<Record>)
    requires Lawful(c) && records != []
    ensures var m, rest := records[0], records[1..];
            ParsePayload(c, Encoded(c, records)) ==
            if && m.ManifestLine? && m.format == FORMAT && m.version == 1 && c.admissible(m)
               && (forall r <- rest :: Belongs(c, m.workspace, r)) && m.counts == CountsOf(DocumentOf(m.workspace, rest))
            then Some(DocumentOf(m.workspace, rest)) else None
  {
    var m, rest := records[0], records[1..];
    assert Encoded(c, records)[1..] == Encoded(c, rest);
    if m.ManifestLine? {
      var d := Document(m.workspace, [], [], [], []);
      CollectEncoded(c, d, rest);
      assert Extended(d, rest) == DocumentOf(m.workspace, rest);
    }
  }

  /** Every archive is parsed as the document its records make. */
  lemma ArchivesAreParsed(c: Codec, text: string, records: seq<Record>, d: Document)
    requires Lawful(c) && IsArchive(c, text, records, d)
    ensures Parse(c, text) == Some(d)
  {
    SealedLines(c, records);
    var lines := Split(text[..|text| - 1]);
    assert lines[1..] == Encoded(c, records);
    PayloadOfRecords(c, records);
  }

  /** Nothing else is parsed. */
  lemma OnlyArchivesAreParsed(c: Codec, text: string) returns (records: seq<Record>)
    requires Lawful(c) && Parse(c, text).Some?
    ensures IsArchive(c, text, records, Parse(c, text).value)
  {
    var body := text[..|text| - 1];
    var lines := Split(body);
    JoinSplit(body);
    var payload := lines[1..];
    var m := ParseLine(c, payload[0]).value;
    var rest := CollectedLines(c, Document(m.workspace, [], [], [], []), payload[1..]);
    records := [m] + rest;
    assert payload == Encoded(c, records) by { assert Encoded(c, records)[1..] == Encoded(c, rest); }
    PayloadOfRecords(c, records);
    assert text == lines[0] + "\n" + Join(payload) + "\n";
  }

  /** The text is an archive of `d`. */
  ghost predicate Archives(c: Codec, text: string, d: Document) {
    exists records :: IsArchive(c, text, records, d)
  }

  /**
    What the parser accepts, for every text: exactly the archives, each as the document its records
    make.
   */
  lemma ParseIff(c: Codec, text: string, d: Document)
    requires Lawful(c)
    ensures Parse(c, text) == Some(d) <==> Archives(c, text, d)
  {
    if Parse(c, text) == Some(d) {
      var records := OnlyArchivesAreParsed(c, text);
    }
    if records :| IsArchive(c, text, records, d) {
      ArchivesAreParsed(c, text, records, d);
    }
  }

  /** An archive in which anything after the checksum line was edited is refused, the hash being injective. */
  lemma EditedIsRefused(c: Codec, line: string, payload: string, payload': string)
    requires Lawful(c) && OneLine(line) && (forall a, b :: c.sha256(a) == c.sha256(b) ==> a == b)
    requires Parse(c, line + "\n" + payload).Some? && payload' != payload
    ensures Parse(c, line + "\n" + payload') == None
  {
    if Parse(c, line + "\n" + payload').Some? {
      SealOf(c, line, payload);
      SealOf(c, line, payload');
    }
  }

  lemma SealOf(c: Codec, line: string, payload: string)
    requires Lawful(c) && OneLine(line) && Parse(c, line + "\n" + payload).Some?
    ensures line == c.encode(ChecksumLine(c.sha256(payload))) && c.decode(line) == Some(ChecksumLine(c.sha256(payload)))
  {
    var text := line + "\n" + payload;
    var records := OnlyArchivesAreParsed(c, text);
    var own := Join(Encoded(c, records)) + "\n";
    FirstLine(line, payload, c.encode(ChecksumLine(c.sha256(own))), own);
  }

  lemma FirstLine(a: string, x: string, b: string, y: string)
    requires OneLine(a) && OneLine(b) && a + "\n" + x == b + "\n" + y
    ensures a == b && x == y
  {
    var s, t := a + "\n" + x, b + "\n" + y;
    assert s[|a|] == '\n' && t[|b|] == '\n';
    assert forall k | 0 <= k < |a| :: s[k] == a[k];
    assert forall k | 0 <= k < |b| :: t[k] == b[k];
    assert |a| == |b|;
    assert s[..|a|] == a && t[..|b|] == b && s[|a| + 1..] == x && t[|b| + 1..] == y;
  }

  // ---- round trip ----

  ghost predicate AllAdmissible(c: Codec, records: seq<Record>) {
    forall r <- records :: c.admissible(r)
  }

  function Untagged(es: seq<Entry>): seq<Entry> {
    seq(|es|, i requires 0 <= i < |es| => es[i].(tags := []))
  }

  lemma {:induction false} ProjectAppend<T>(a: seq<Record>, b: seq<Record>, pick: Record -> Option<T>)
    ensures Project(a + b, pick) == Project(a, pick) + Project(b, pick)
    decreases |a|
  {
    if a == [] {
      assert a + b == b;
    } else {
      assert (a + b)[1..] == a[1..] + b;
      ProjectAppend(a[1..], b, pick);
    }
  }

  lemma {:induction false} ProjectNone<T>(records: seq<Record>, pick: Record -> Option<T>)
    requires forall r <- records :: pick(r).None?
    ensures Project(records, pick) == []
    decreases |records|
  {
    if records != [] { ProjectNone(records[1..], pick); }
  }

  lemma {:induction false} ProjectAll<T>(records: seq<Record>, pick: Record -> Option<T>, xs: seq<T>)
    requires |records| == |xs| && forall i | 0 <= i < |xs| :: pick(records[i]) == Some(xs[i])
    ensures Project(records, pick) == xs
    decreases |records|
  {
    if records != [] { ProjectAll(records[1..], pick, xs[1..]); }
  }

  lemma ProjectFour<T>(a: seq<Record>, b: seq<Record>, d: seq<Record>, e: seq<Record>, pick: Record -> Option<T>)
    ensures Project(a + b + d + e, pick) == Project(a, pick) + Project(b, pick) + Project(d, pick) + Project(e, pick)
  {
    ProjectAppend(a + b + d, e, pick);
    ProjectAppend(a + b, d, pick);
    ProjectAppend(a, b, pick);
  }

  lemma BodyEntries(es: seq<Entry>, ls: seq<Link>, aa: seq<Audit>)
    ensures Project(Body(es, ls, aa), EntryOf) == Untagged(es)
  {
    var E, T, L, A := EntryLines(es), TagLines(TagsOf(es)), LinkLines(ls), AuditLines(aa);
    ProjectFour(E, T, L, A, EntryOf);
    assert Project(E, EntryOf) == Untagged(es) by { ProjectAll(E, EntryOf, Untagged(es)); }
    assert Project(T, EntryOf) == [] by { ProjectNone(T, EntryOf); }
    assert Project(L, EntryOf) == [] by { ProjectNone(L, EntryOf); }
    assert Project(A, EntryOf) == [] by { ProjectNone(A, EntryOf); }
  }

  lemma BodyTags(es: seq<Entry>, ls: seq<Link>, aa: seq<Audit>)
    ensures Project(Body(es, ls, aa), TagOf) == TagsOf(es)
  {
    var E, T, L, A := EntryLines(es), TagLines(TagsOf(es)), LinkLines(ls), AuditLines(aa);
    ProjectFour(E, T, L, A, TagOf);
    assert Project(E, TagOf) == [] by { ProjectNone(E, TagOf); }
    assert Project(T, TagOf) == TagsOf(es) by { ProjectAll(T, TagOf, TagsOf(es)); }
    assert Project(L, TagOf) == [] by { ProjectNone(L, TagOf); }
    assert Project(A, TagOf) == [] by { ProjectNone(A, TagOf); }
  }

  lemma BodyLinks(es: seq<Entry>, ls: seq<Link>, aa: seq<Audit>)
    ensures Project(Body(es, ls, aa), LinkOf) == ls
  {
    var E, T, L, A := EntryLines(es), TagLines(TagsOf(es)), LinkLines(ls), AuditLines(aa);
    ProjectFour(E, T, L, A, LinkOf);
    assert Project(E, LinkOf) == [] by { ProjectNone(E, LinkOf); }
    assert Project(T, LinkOf) == [] by { ProjectNone(T, LinkOf); }
    assert Project(L, LinkOf) == ls by { ProjectAll(L, LinkOf, ls); }
    assert Project(A, LinkOf) == [] by { ProjectNone(A, LinkOf); }
  }

  lemma BodyAudit(es: seq<Entry>, ls: seq<Link>, aa: seq<Audit>)
    ensures Project(Body(es, ls, aa), AuditOf) == aa
  {
    var E, T, L, A := EntryLines(es), TagLines(TagsOf(es)), LinkLines(ls), AuditLines(aa);
    ProjectFour(E, T, L, A, AuditOf);
    assert Project(E, AuditOf) == [] by { ProjectNone(E, AuditOf); }
    assert Project(T, AuditOf) == [] by { ProjectNone(T, AuditOf); }
    assert Project(L, AuditOf) == [] by { ProjectNone(L, AuditOf); }
    assert Project(A, AuditOf) == aa by { ProjectAll(A, AuditOf, aa); }
  }

  /** The sections of a printed body are its records by kind. */
  lemma BodyByKind(workspace: string, es: seq<Entry>, ls: seq<Link>, aa: seq<Audit>)
    ensures DocumentOf(workspace, Body(es, ls, aa)) == Document(workspace, Untagged(es), TagsOf(es), ls, aa)
  {
    BodyEntries(es, ls, aa);
    BodyTags(es, ls, aa);
    BodyLinks(es, ls, aa);
    BodyAudit(es, ls, aa);
  }

  /**
    Reading back what was printed recovers the workspace, the entries, the tags in entry
    order, the links and the audit events, all in order.
   */
  lemma ParsePrint(c: Codec, workspace: string, es: seq<Entry>, ls: seq<Link>, aa: seq<Audit>)
    requires Lawful(c)
    requires AllAdmissible(c, [Manifest(workspace, es, ls, aa)] + Body(es, ls, aa))
    requires forall e <- es :: e.workspace == workspace && e.revision == 1
    requires forall a <- aa :: a.workspace == workspace
    ensures Parse(c, Print(c, workspace, es, ls, aa))
            == Some(Document(workspace, Untagged(es), TagsOf(es), ls, aa))
  {
    var records := [Manifest(workspace, es, ls, aa)] + Body(es, ls, aa);
    assert records[0] in records && records[1..] == Body(es, ls, aa);
    forall r <- Body(es, ls, aa) ensures Belongs(c, workspace, r) { assert r in records; }
    BodyByKind(workspace, es, ls, aa);
    ArchivesAreParsed(c, Print(c, workspace, es, ls, aa), records, Document(workspace, Untagged(es), TagsOf(es), ls, aa));
  }
}
