/**
  The directory on which conditional file mutations run, and the vocabulary of
  the steps one conditional call may take on it (src/agent-file/atomic-write.ts).

  A directory is a map from names to inodes plus an inode table. `rename`, `link`
  and `unlink` behave as in IEEE Std 1003.1-2017 (System Interfaces, section 3);
  an inode number is never handed out twice. Every call owns the names it draws
  from a random UUID: `.tmp`, `.previous`, `.rollback`, `.deleted` and the
  `.cleanup` name each of them is moved to before it is unlinked.
 */
module AtomicProtocol {
  import opened Options

  type Pid = nat
  type Inode = nat

  datatype Kind = Tmp | Previous | Rollback | Deleted

  datatype Name =
    | Target                            // the pathname being mutated
    | Plain(id: nat)                    // any other shared pathname
    | Private(owner: Pid, kind: Kind)   // .<base>.<uuid>.<kind>
    | Disposal(owner: Pid, kind: Kind)  // ..<base>.<uuid>.<kind>.<uuid>.cleanup

  datatype File = File(content: string, mode: nat)

  datatype Fs = Fs(names: map<Name, Inode>, files: map<Inode, File>, next: Inode)

  /** What a bound read reports: identity, bytes and mode, and the number of links. */
  datatype Snapshot = Snapshot(inode: Inode, content: string, mode: nat)
  datatype Artifact = Artifact(snapshot: Snapshot, links: nat)

  ghost predicate WellFormed(fs: Fs) {
    && (forall n <- fs.names :: fs.names[n] in fs.files)
    && (forall i <- fs.files :: i < fs.next)
  }

  predicate Owned(n: Name, p: Pid) {
    (n.Private? || n.Disposal?) && n.owner == p
  }

  function Lookup(fs: Fs, n: Name): Option<Inode> {
    if n in fs.names then Some(fs.names[n]) else None
  }

  function NamesOf(fs: Fs, i: Inode): set<Name> {
    set n | n in fs.names && fs.names[n] == i
  }

  function LinkCount(fs: Fs, i: Inode): nat {
    |NamesOf(fs, i)|
  }

  function SnapshotOf(fs: Fs, i: Inode): Snapshot
    requires i in fs.files
  {
    Snapshot(i, fs.files[i].content, fs.files[i].mode)
  }

  /** One atomic bound observation of a name. */
  function Observe(fs: Fs, n: Name): Option<Artifact>
    requires WellFormed(fs)
  {
    if n in fs.names
    then Some(Artifact(SnapshotOf(fs, fs.names[n]), LinkCount(fs, fs.names[n])))
    else None
  }

  // ---- the three POSIX calls ----

  function RenameFs(fs: Fs, src: Name, dst: Name): Fs
    requires src in fs.names && src != dst
  {
    fs.(names := (fs.names - {src})[dst := fs.names[src]])
  }

  function LinkFs(fs: Fs, src: Name, dst: Name): Fs
    requires src in fs.names && dst !in fs.names
  {
    fs.(names := fs.names[dst := fs.names[src]])
  }

  function UnlinkFs(fs: Fs, n: Name): Fs
    requires n in fs.names
  {
    fs.(names := fs.names - {n})
  }

  // ---- one call's own record ----

  datatype Role = Writer | Unlinker

  function Quarantine(role: Role): Kind {
    if role.Writer? then Previous else Deleted
  }

  /**
    What one call has done so far. `expected` is the identity it was planned
    against; `settled` records that the original may go: the replacement was validated
    (writer), or the quarantined file was verified and no alternate path had appeared
    (unlinker); `confirmed` that the last look at the target after a restore attempt
    showed the expected snapshot; `validations` what each look at the target after the
    link found there, the new file under its two names; `cleared` the other paths seen to be
    free once the change was made and before it settled; `alone` that the target was at
    last seen to be the only name of the new file.
   */
  datatype Own = Own(
    role: Role,
    expected: Option<Inode>,
    created: Option<Inode>,
    installed: bool,
    captured: Option<Inode>,
    relinked: bool,
    retracted: Option<Inode>,
    settled: bool,
    confirmed: bool,
    returned: bool,
    disposed: set<Kind>,
    erased: set<Kind>,
    validations: seq<File>,
    cleared: seq<Name>,
    alone: bool)

  function Begin(role: Role, expected: Option<Inode>): Own {
    Own(role, expected, None, false, None, false, None, false, false, false, {}, {}, [], [], false)
  }

  /** The inode this call put under its private name of kind `k`. */
  function InodeOf(own: Own, k: Kind): Option<Inode> {
    match k
    case Tmp => own.created
    case Rollback => own.retracted
    case _ => if k == Quarantine(own.role) then own.captured else None
  }

  /** The installed file is this call's own and has not been taken back. */
  predicate InPlace(own: Own) {
    own.installed && own.retracted.None?
  }

  /** When the file of kind `k` may be thrown away. */
  predicate MayErase(own: Own, k: Kind, i: Inode) {
    && InodeOf(own, k) == Some(i)
    && (k == Rollback ==> own.created == Some(i))
    && (k == Quarantine(own.role) ==> own.expected == Some(i) && (own.settled || own.relinked))
  }

  datatype Effect =
    | Create(inode: Inode, file: File)   // open(O_CREAT | O_EXCL) of .tmp
    | Write(inode: Inode, file: File)    // write or chmod of the temporary file
    | Capture(inode: Inode)              // rename target -> quarantine
    | Install(inode: Inode)              // link .tmp -> target
    | Retract(inode: Inode)              // rename target -> .rollback
    | Relink(inode: Inode)               // link quarantine -> target
    | Dispose(kind: Kind, inode: Inode)  // rename private name -> .cleanup
    | Erase(kind: Kind, inode: Inode)    // unlink .cleanup
    | Confirm(inode: Inode)              // the target showed the expected file again
    | Sight(inode: Inode, file: File)    // the target showed the new file, doubly linked
    | SeeFree(name: Name)                // another path was seen not to exist
    | SeeAlone(inode: Inode)             // the target showed the new file, singly linked
    | Settle | Return

  /** The steps the protocol allows next. */
  predicate Legal(own: Own, e: Effect) {
    && !own.returned
    && match e
       case Create(i, _) => own.created.None? && own.expected != Some(i)
       case Write(i, _) => own.created == Some(i) && !own.installed && Tmp !in own.disposed
       case Capture(i) => own.captured.None? && own.expected.Some? && !own.installed && !own.confirmed
       case Install(i) => own.created == Some(i) && !own.installed && Tmp !in own.disposed
                          && !own.relinked && !own.confirmed && (own.expected.Some? ==> own.captured.Some?)
       case Retract(i) => InPlace(own) && !own.settled && !own.confirmed
       case Relink(i) =>
         own.captured == Some(i) && own.expected == Some(i) && !own.relinked && !InPlace(own)
         && !own.confirmed && Quarantine(own.role) !in own.disposed
       case Dispose(k, i) => MayErase(own, k, i) && k !in own.disposed
       case Erase(k, i) => MayErase(own, k, i) && k in own.disposed && k !in own.erased
       case Sight(i, _) => own.role.Writer? && InPlace(own) && own.created == Some(i) && !own.settled
       case SeeFree(_) => !own.settled && if own.role.Writer? then InPlace(own) && |own.validations| >= 2
                                          else own.captured.Some? && own.captured == own.expected && !own.relinked
       case SeeAlone(i) => own.role.Writer? && InPlace(own) && own.created == Some(i) && own.settled
       case Settle => if own.role.Writer? then InPlace(own) && |own.validations| >= 2
                      else own.captured.Some? && own.captured == own.expected && !own.relinked
       case Confirm(i) => own.expected == Some(i)
       case Return => own.settled && !own.relinked && own.captured == own.expected
                      && (own.role.Writer? ==> InPlace(own))
  }

  function Advance(own: Own, e: Effect): Own {
    match e
    case Create(i, _) => own.(created := Some(i))
    case Write(_, _) => own
    case Capture(i) => own.(captured := Some(i))
    case Install(_) => own.(installed := true)
    case Retract(i) => own.(retracted := Some(i))
    case Relink(_) => own.(relinked := true)
    case Dispose(k, _) => own.(disposed := own.disposed + {k})
    case Erase(k, _) => own.(erased := own.erased + {k})
    case Settle => own.(settled := true)
    case Confirm(_) => own.(confirmed := true)
    case Sight(_, f) => own.(validations := own.validations + [f])
    case SeeFree(n) => own.(cleared := own.cleared + [n])
    case SeeAlone(_) => own.(alone := true)
    case Return => own.(returned := true)
  }

  /** Whether the filesystem carries the step out, rather than rejecting it. */
  predicate Enabled(fs: Fs, p: Pid, role: Role, e: Effect) {
    match e
    case Create(i, _) => i == fs.next && Private(p, Tmp) !in fs.names
    case Write(i, _) => i in fs.files
    case Capture(i) => Lookup(fs, Target) == Some(i)
    case Install(i) => Lookup(fs, Private(p, Tmp)) == Some(i) && Target !in fs.names
    case Retract(i) => Lookup(fs, Target) == Some(i)
    case Relink(i) => Lookup(fs, Private(p, Quarantine(role))) == Some(i) && Target !in fs.names
    case Dispose(k, i) => Lookup(fs, Private(p, k)) == Some(i)
    case Erase(k, i) => Lookup(fs, Disposal(p, k)) == Some(i)
    case Confirm(i) => Lookup(fs, Target) == Some(i)
    case Sight(i, f) => Lookup(fs, Target) == Some(i) && i in fs.files && fs.files[i] == f && LinkCount(fs, i) == 2
    case SeeFree(n) => n !in fs.names
    case SeeAlone(i) => Lookup(fs, Target) == Some(i) && LinkCount(fs, i) == 1
    case _ => true
  }

  function Apply(fs: Fs, p: Pid, role: Role, e: Effect): Fs
    requires Enabled(fs, p, role, e)
  {
    match e
    case Create(i, f) => Fs(fs.names[Private(p, Tmp) := i], fs.files[i := f], fs.next + 1)
    case Write(i, f) => fs.(files := fs.files[i := f])
    case Capture(i) => RenameFs(fs, Target, Private(p, Quarantine(role)))
    case Install(i) => LinkFs(fs, Private(p, Tmp), Target)
    case Retract(i) => RenameFs(fs, Target, Private(p, Rollback))
    case Relink(i) => LinkFs(fs, Private(p, Quarantine(role)), Target)
    case Dispose(k, i) => RenameFs(fs, Private(p, k), Disposal(p, k))
    case Erase(k, i) => UnlinkFs(fs, Disposal(p, k))
    case _ => fs
  }

  /** The name of kind `k` and its disposal name, as the record predicts them. */
  function Expects(own: Own, k: Kind): (Option<Inode>, Option<Inode>) {
    (if k in own.disposed then None else InodeOf(own, k),
     if k in own.disposed && k !in own.erased then InodeOf(own, k) else None)
  }

  ghost predicate NameAccounted(fs: Fs, p: Pid, own: Own, k: Kind) {
    && (Lookup(fs, Private(p, k)), Lookup(fs, Disposal(p, k))) == Expects(own, k)
    && (InodeOf(own, k).Some? ==> InodeOf(own, k).value in fs.files)
  }

  /** The fields of the record agree with one another. */
  ghost predicate Coherent(own: Own) {
    && FieldsAgree(own)
    && own.erased <= own.disposed
    && (forall k <- own.disposed :: Disposable(own, k))
  }

  predicate Disposable(own: Own, k: Kind) {
    InodeOf(own, k).Some? && MayErase(own, k, InodeOf(own, k).value)
  }

  predicate FieldsAgree(own: Own) {
    && (own.created.Some? ==> own.created != own.expected)
    && (own.retracted.Some? ==> own.installed)
    && (own.installed ==> own.created.Some? && (own.expected.Some? ==> own.captured.Some?))
    && (own.captured.Some? ==> own.expected.Some?)
    && (own.relinked ==> own.captured.Some? && own.captured == own.expected && !InPlace(own))
    && (own.settled ==> if own.role.Writer? then InPlace(own) && |own.validations| >= 2 else own.captured.Some?)
    && (own.alone ==> own.settled)
  }

  /** The private names in the directory are exactly those the record accounts for. */
  ghost predicate Accounts(fs: Fs, p: Pid, own: Own) {
    Coherent(own) && forall k :: NameAccounted(fs, p, own, k)
  }

  /** Some private name of call `p` is still in the directory. */
  ghost predicate Leftover(fs: Fs, p: Pid) {
    exists n :: Owned(n, p) && n in fs.names
  }

  /** Everyone else's doings, as far as call `p` can rely on them: inodes are not
      reused and nobody touches a name drawn from someone else's UUID. */
  ghost predicate Rely(p: Pid, s: Fs, s': Fs) {
    && WellFormed(s')
    && s.next <= s'.next
    && s.files.Keys <= s'.files.Keys
    && (forall i <- s'.files :: i in s.files || s.next <= i)
    && (forall n :: Owned(n, p) ==> Lookup(s', n) == Lookup(s, n))
  }

  /** What call `p` can see of the target and of its own names. */
  function View(fs: Fs, p: Pid): map<Name, Artifact>
    requires WellFormed(fs)
  {
    map n | n in fs.names && (n == Target || Owned(n, p)) :: Observe(fs, n).value
  }

  /** The stronger assumption of an undisturbed run: besides, the target and the
      files behind the call's own names look the same as before. */
  ghost predicate Apart(p: Pid, s: Fs, s': Fs)
    requires WellFormed(s) && WellFormed(s')
  {
    View(s', p) == View(s, p)
  }

  lemma ApartObserves(p: Pid, s: Fs, s': Fs, n: Name)
    requires WellFormed(s) && WellFormed(s') && Apart(p, s, s')
    requires n == Target || Owned(n, p)
    ensures Observe(s', n) == Observe(s, n)
  {
    assert n in View(s', p) <==> n in View(s, p);
  }

  lemma RelyKeepsAccounts(p: Pid, s: Fs, s': Fs, own: Own)
    requires Rely(p, s, s') && Accounts(s, p, own)
    ensures Accounts(s', p, own)
  {
    forall k: Kind
      ensures NameAccounted(s', p, own, k)
    {
      assert NameAccounted(s, p, own, k);
      assert Owned(Private(p, k), p) && Owned(Disposal(p, k), p);
    }
  }

  // ---- link counts ----

  lemma RenameKeepsCount(fs: Fs, src: Name, dst: Name, i: Inode)
    requires src in fs.names && dst !in fs.names
    ensures LinkCount(RenameFs(fs, src, dst), i) == LinkCount(fs, i)
  {
    var after := RenameFs(fs, src, dst);
    if fs.names[src] == i {
      assert NamesOf(after, i) == NamesOf(fs, i) - {src} + {dst};
    } else {
      assert NamesOf(after, i) == NamesOf(fs, i);
    }
  }

  lemma LinkAddsOne(fs: Fs, src: Name, dst: Name, i: Inode)
    requires src in fs.names && dst !in fs.names
    ensures LinkCount(LinkFs(fs, src, dst), i) == LinkCount(fs, i) + (if fs.names[src] == i then 1 else 0)
  {
    var after := LinkFs(fs, src, dst);
    if fs.names[src] == i {
      assert NamesOf(after, i) == NamesOf(fs, i) + {dst};
    } else {
      assert NamesOf(after, i) == NamesOf(fs, i);
    }
  }

  lemma UnlinkDropsOne(fs: Fs, n: Name, i: Inode)
    requires n in fs.names
    ensures LinkCount(UnlinkFs(fs, n), i) == LinkCount(fs, i) - (if fs.names[n] == i then 1 else 0)
  {
    var after := UnlinkFs(fs, n);
    if fs.names[n] == i {
      assert NamesOf(after, i) == NamesOf(fs, i) - {n};
    } else {
      assert NamesOf(after, i) == NamesOf(fs, i);
    }
  }

  /** What was disposed of stays disposable. */
  lemma DisposedStays(own: Own, e: Effect, k: Kind)
    requires FieldsAgree(own) && Legal(own, e) && k in Advance(own, e).disposed
    requires k in own.disposed ==> Disposable(own, k)
    ensures Disposable(Advance(own, e), k)
  {
    match e
    case Create(_, _) =>
    case Capture(_) =>
    case Install(_) =>
    case Retract(_) =>
    case Relink(_) =>
    case Settle =>
    case _ =>
  }

  lemma StepKeepsFields(own: Own, e: Effect)
    requires FieldsAgree(own) && Legal(own, e)
    ensures FieldsAgree(Advance(own, e))
  {
    match e
    case Create(_, _) =>
    case Capture(_) =>
    case Install(_) =>
    case Retract(_) =>
    case Relink(_) =>
    case Settle =>
    case _ =>
  }

  lemma StepKeepsCoherent(own: Own, e: Effect)
    requires Coherent(own) && Legal(own, e)
    ensures Coherent(Advance(own, e))
  {
    StepKeepsFields(own, e);
    forall k <- Advance(own, e).disposed
      ensures Disposable(Advance(own, e), k)
    {
      DisposedStays(own, e, k);
    }
  }

  lemma StepKeepsWellFormed(fs: Fs, p: Pid, own: Own, e: Effect)
    requires WellFormed(fs) && Accounts(fs, p, own)
    requires Legal(own, e) && Enabled(fs, p, own.role, e)
    ensures WellFormed(Apply(fs, p, own.role, e))
  {
  }

  lemma NamedByRename(fs: Fs, p: Pid, own: Own, e: Effect, k: Kind)
    requires WellFormed(fs) && Coherent(own) && NameAccounted(fs, p, own, k)
    requires Legal(own, e) && Enabled(fs, p, own.role, e) && (e.Capture? || e.Retract? || e.Dispose?)
    ensures NameAccounted(Apply(fs, p, own.role, e), p, Advance(own, e), k)
  {
  }

  lemma NamedByCreate(fs: Fs, p: Pid, own: Own, e: Effect, k: Kind)
    requires WellFormed(fs) && Coherent(own) && NameAccounted(fs, p, own, k)
    requires Legal(own, e) && Enabled(fs, p, own.role, e) && (e.Create? || e.Write?)
    ensures NameAccounted(Apply(fs, p, own.role, e), p, Advance(own, e), k)
  {
  }

  lemma NamedByLink(fs: Fs, p: Pid, own: Own, e: Effect, k: Kind)
    requires WellFormed(fs) && NameAccounted(fs, p, own, k)
    requires Legal(own, e) && Enabled(fs, p, own.role, e) && (e.Install? || e.Relink?)
    ensures NameAccounted(Apply(fs, p, own.role, e), p, Advance(own, e), k)
  {
  }

  lemma NamedByErase(fs: Fs, p: Pid, own: Own, e: Effect, k: Kind)
    requires WellFormed(fs) && NameAccounted(fs, p, own, k)
    requires Legal(own, e) && Enabled(fs, p, own.role, e) && (e.Erase?)
    ensures NameAccounted(Apply(fs, p, own.role, e), p, Advance(own, e), k)
  {
  }

  lemma NamedByNote(fs: Fs, p: Pid, own: Own, e: Effect, k: Kind)
    requires WellFormed(fs) && NameAccounted(fs, p, own, k)
    requires Legal(own, e) && Enabled(fs, p, own.role, e) && (e.Settle? || e.Return? || e.Confirm? || e.Sight? || e.SeeFree? || e.SeeAlone?)
    ensures NameAccounted(Apply(fs, p, own.role, e), p, Advance(own, e), k)
  {
  }

  /** A legal, enabled step keeps the directory well formed and the record exact. */
  lemma StepKeepsAccounts(fs: Fs, p: Pid, own: Own, e: Effect)
    requires WellFormed(fs) && Accounts(fs, p, own)
    requires Legal(own, e) && Enabled(fs, p, own.role, e)
    ensures WellFormed(Apply(fs, p, own.role, e))
    ensures Accounts(Apply(fs, p, own.role, e), p, Advance(own, e))
  {
    StepKeepsCoherent(own, e);
    StepKeepsWellFormed(fs, p, own, e);
    forall k: Kind
      ensures NameAccounted(Apply(fs, p, own.role, e), p, Advance(own, e), k)
    {
      assert NameAccounted(fs, p, own, k);
      match e
      case Create(_, _) | Write(_, _) => NamedByCreate(fs, p, own, e, k);
      case Capture(_) | Retract(_) | Dispose(_, _) => NamedByRename(fs, p, own, e, k);
      case Install(_) | Relink(_) => NamedByLink(fs, p, own, e, k);
      case Erase(_, _) => NamedByErase(fs, p, own, e, k);
      case _ => NamedByNote(fs, p, own, e, k);
    }
  }

  /** What a step of `p` does is within everyone else's rely condition. */
  lemma StepIsRely(fs: Fs, p: Pid, own: Own, e: Effect, q: Pid)
    requires WellFormed(fs) && Accounts(fs, p, own)
    requires Legal(own, e) && Enabled(fs, p, own.role, e) && p != q
    ensures Rely(q, fs, Apply(fs, p, own.role, e))
  {
    StepKeepsAccounts(fs, p, own, e);
  }

  // ---- how a step changes the view ----

  function More(v: map<Name, Artifact>, i: Inode): map<Name, Artifact> {
    map n | n in v :: if v[n].snapshot.inode == i then v[n].(links := v[n].links + 1) else v[n]
  }

  function Fewer(v: map<Name, Artifact>, i: Inode): map<Name, Artifact> {
    map n | n in v ::
      if v[n].snapshot.inode == i && v[n].links > 0 then v[n].(links := v[n].links - 1) else v[n]
  }

  predicate ViewAllows(v: map<Name, Artifact>, p: Pid, role: Role, e: Effect) {
    match e
    case Create(_, _) => true
    case Write(i, _) => true
    case Capture(_) | Retract(_) => Target in v
    case Install(_) => Private(p, Tmp) in v
    case Relink(_) => Private(p, Quarantine(role)) in v
    case Dispose(k, _) => Private(p, k) in v
    case _ => true
  }

  function ViewAfter(v: map<Name, Artifact>, p: Pid, role: Role, e: Effect): map<Name, Artifact>
    requires ViewAllows(v, p, role, e)
  {
    match e
    case Create(i, f) => v[Private(p, Tmp) := Artifact(Snapshot(i, f.content, f.mode), 1)]
    case Write(i, f) =>
      map n | n in v ::
        if v[n].snapshot.inode == i then v[n].(snapshot := Snapshot(i, f.content, f.mode)) else v[n]
    case Capture(_) => (v - {Target})[Private(p, Quarantine(role)) := v[Target]]
    case Install(i) => More(v[Target := v[Private(p, Tmp)]], i)
    case Retract(_) => (v - {Target})[Private(p, Rollback) := v[Target]]
    case Relink(i) => More(v[Target := v[Private(p, Quarantine(role))]], i)
    case Dispose(k, _) => (v - {Private(p, k)})[Disposal(p, k) := v[Private(p, k)]]
    case Erase(k, i) => Fewer(v - {Disposal(p, k)}, i)
    case _ => v
  }

  /** The private names a step moves a file to are free before it. */
  lemma DestinationsFree(fs: Fs, p: Pid, own: Own, e: Effect)
    requires WellFormed(fs) && Accounts(fs, p, own) && Legal(own, e) && Enabled(fs, p, own.role, e)
    ensures e.Capture? ==> Private(p, Quarantine(own.role)) !in fs.names
    ensures e.Retract? ==> Private(p, Rollback) !in fs.names
    ensures e.Dispose? ==> Disposal(p, e.kind) !in fs.names
  {
    assert NameAccounted(fs, p, own, Quarantine(own.role));
    assert NameAccounted(fs, p, own, Rollback);
    if e.Dispose? { assert NameAccounted(fs, p, own, e.kind); }
  }

  lemma RenameView(fs: Fs, p: Pid, src: Name, dst: Name)
    requires WellFormed(fs) && src in fs.names && dst !in fs.names
    requires (src == Target || Owned(src, p)) && Owned(dst, p)
    ensures WellFormed(RenameFs(fs, src, dst))
    ensures View(RenameFs(fs, src, dst), p) == (View(fs, p) - {src})[dst := View(fs, p)[src]]
  {
    forall i { RenameKeepsCount(fs, src, dst, i); }
  }

  lemma LinkView(fs: Fs, p: Pid, src: Name)
    requires WellFormed(fs) && src in fs.names && Target !in fs.names && Owned(src, p)
    ensures WellFormed(LinkFs(fs, src, Target))
    ensures View(LinkFs(fs, src, Target), p) == More(View(fs, p)[Target := View(fs, p)[src]], fs.names[src])
  {
    forall i { LinkAddsOne(fs, src, Target, i); }
  }

  lemma UnlinkView(fs: Fs, p: Pid, n: Name)
    requires WellFormed(fs) && n in fs.names
    ensures WellFormed(UnlinkFs(fs, n))
    ensures View(UnlinkFs(fs, n), p) == Fewer(View(fs, p) - {n}, fs.names[n])
  {
    forall i { UnlinkDropsOne(fs, n, i); }
  }

  lemma CreateView(fs: Fs, p: Pid, i: Inode, f: File)
    requires WellFormed(fs) && i == fs.next && Private(p, Tmp) !in fs.names
    ensures var fs' := Fs(fs.names[Private(p, Tmp) := i], fs.files[i := f], fs.next + 1);
            WellFormed(fs') && View(fs', p) == View(fs, p)[Private(p, Tmp) := Artifact(Snapshot(i, f.content, f.mode), 1)]
  {
    var fs' := Fs(fs.names[Private(p, Tmp) := i], fs.files[i := f], fs.next + 1);
    assert NamesOf(fs', i) == {Private(p, Tmp)};
    forall j | j in fs.files
      ensures NamesOf(fs', j) == NamesOf(fs, j)
    {
    }
  }

  lemma ViewStep(fs: Fs, p: Pid, own: Own, e: Effect)
    requires WellFormed(fs) && Accounts(fs, p, own) && Legal(own, e) && Enabled(fs, p, own.role, e)
    ensures WellFormed(Apply(fs, p, own.role, e))
    ensures ViewAllows(View(fs, p), p, own.role, e)
    ensures View(Apply(fs, p, own.role, e), p) == ViewAfter(View(fs, p), p, own.role, e)
  {
    StepKeepsAccounts(fs, p, own, e);
    DestinationsFree(fs, p, own, e);
    match e
    case Create(i, f) => CreateView(fs, p, i, f);
    case Write(i, f) => assert forall j :: NamesOf(fs.(files := fs.files[i := f]), j) == NamesOf(fs, j);
    case Capture(_) => RenameView(fs, p, Target, Private(p, Quarantine(own.role)));
    case Install(_) => LinkView(fs, p, Private(p, Tmp));
    case Retract(_) => RenameView(fs, p, Target, Private(p, Rollback));
    case Relink(_) => LinkView(fs, p, Private(p, Quarantine(own.role)));
    case Dispose(k, _) => RenameView(fs, p, Private(p, k), Disposal(p, k));
    case Erase(k, _) => UnlinkView(fs, p, Disposal(p, k));
    case _ =>
  }

  // ---- the new file's links ----

  /** How many of the new file's names the record accounts for. */
  function CreatedLinks(own: Own): nat {
    (if Tmp !in own.erased then 1 else 0) + (if own.installed && Rollback !in own.erased then 1 else 0)
  }

  /** The new file has exactly the names its call gave it, and what was taken back is that file. */
  ghost predicate Counted(fs: Fs, own: Own) {
    own.created.Some? ==>
      && (CreatedLinks(own) > 0 ==> LinkCount(fs, own.created.value) == CreatedLinks(own))
      && (InPlace(own) ==> Lookup(fs, Target) == own.created)
      && (own.retracted.Some? ==> own.retracted == own.created)
  }

  lemma CountedByRename(fs: Fs, p: Pid, own: Own, e: Effect)
    requires WellFormed(fs) && Accounts(fs, p, own) && Counted(fs, own)
    requires Legal(own, e) && Enabled(fs, p, own.role, e) && (e.Capture? || e.Retract? || e.Dispose?)
    ensures Counted(Apply(fs, p, own.role, e), Advance(own, e))
  {
    DestinationsFree(fs, p, own, e);
    assert NameAccounted(fs, p, own, Tmp);
    if own.created.Some? {
      var i := own.created.value;
      match e
      case Capture(_) => RenameKeepsCount(fs, Target, Private(p, Quarantine(own.role)), i);
      case Retract(_) => RenameKeepsCount(fs, Target, Private(p, Rollback), i);
      case Dispose(kind, _) => RenameKeepsCount(fs, Private(p, kind), Disposal(p, kind), i);
    }
  }

  lemma CountedByLink(fs: Fs, p: Pid, own: Own, e: Effect)
    requires WellFormed(fs) && Accounts(fs, p, own) && Counted(fs, own)
    requires Legal(own, e) && Enabled(fs, p, own.role, e) && (e.Install? || e.Relink? || e.Erase?)
    ensures Counted(Apply(fs, p, own.role, e), Advance(own, e))
  {
    if own.created.Some? {
      var i := own.created.value;
      match e
      case Install(_) => LinkAddsOne(fs, Private(p, Tmp), Target, i);
      case Relink(_) => LinkAddsOne(fs, Private(p, Quarantine(own.role)), Target, i);
      case Erase(kind, _) =>
        assert NameAccounted(fs, p, own, kind) && NameAccounted(fs, p, own, Rollback);
        UnlinkDropsOne(fs, Disposal(p, kind), i);
    }
  }

  /** Every step of the call itself keeps the count. */
  lemma StepKeepsCounted(fs: Fs, p: Pid, own: Own, e: Effect)
    requires WellFormed(fs) && Accounts(fs, p, own) && Counted(fs, own)
    requires Legal(own, e) && Enabled(fs, p, own.role, e)
    ensures Counted(Apply(fs, p, own.role, e), Advance(own, e))
  {
    match e
    case Capture(_) | Retract(_) | Dispose(_, _) => CountedByRename(fs, p, own, e);
    case Install(_) | Relink(_) | Erase(_, _) => CountedByLink(fs, p, own, e);
    case Create(i, f) =>
      assert NameAccounted(fs, p, own, Tmp);
      assert NamesOf(Apply(fs, p, own.role, e), i) == {Private(p, Tmp)};
    case Write(i, f) => assert NamesOf(Apply(fs, p, own.role, e), i) == NamesOf(fs, i);
    case _ =>
  }

  /** So does everyone else, as long as nobody changes what the call can see. */
  lemma ApartKeepsCounted(p: Pid, s: Fs, s': Fs, own: Own)
    requires WellFormed(s) && WellFormed(s') && Apart(p, s, s') && Accounts(s, p, own) && Accounts(s', p, own)
    requires Counted(s, own)
    ensures Counted(s', own)
  {
    ApartObserves(p, s, s', Target);
    if own.created.Some? {
      assert NameAccounted(s, p, own, Tmp) && NameAccounted(s', p, own, Tmp);
      assert NameAccounted(s, p, own, Rollback) && NameAccounted(s', p, own, Rollback);
      ApartObserves(p, s, s', Private(p, Tmp));
      ApartObserves(p, s, s', Disposal(p, Tmp));
      ApartObserves(p, s, s', Private(p, Rollback));
      ApartObserves(p, s, s', Disposal(p, Rollback));
    }
  }
}
