/**
  Committing planned directories and files one by one, and undoing them in reverse
  (src/commands/setup.ts:514-572, 626-660, 976-1050).
 */
module SetupUndo {
  import opened Options

  datatype Path = Root | In(dir: Path, name: string)

  datatype Node = Dir(ino: nat) | File(ino: nat, content: string, mode: nat)

  type Tree = map<Path, Node>

  function At(t: Tree, p: Path): Option<Node> {
    if p in t then Some(t[p]) else None
  }

  predicate IsDir(t: Tree, p: Path) {
    p in t && t[p].Dir?
  }

  predicate Housed(t: Tree, p: Path) {
    p.Root? || IsDir(t, p.dir)
  }

  /** Every node lies in a directory of the tree. */
  ghost predicate Closed(t: Tree) {
    forall p: Path {:trigger Housed(t, p)} :: p in t ==> Housed(t, p)
  }

  /** The same directory, or a file with the same content and mode, or nothing in both. */
  predicate SameSight(a: Option<Node>, b: Option<Node>) {
    a == b || (a.Some? && b.Some? && a.value.File? && b.value.File?
               && a.value.content == b.value.content && a.value.mode == b.value.mode)
  }

  ghost predicate SameTree(a: Tree, b: Tree) {
    forall p: Path :: SameSight(At(a, p), At(b, p))
  }

  // ---- plans ----

  datatype Rendered = Unchanged | Write(content: string) | Delete

  /** A planned file; rendering looks at the content found when committing. */
  datatype Planned = Planned(path: Path, mode: nat, skip: bool, render: Option<string> -> Rendered)

  /** Where a file step fails: not at all, before it changes anything, as a committed error, or on its clean-up report. */
  datatype FileFault = NoFault | BeforePublication | CommittedError | CleanupReported

  /** Where a directory step fails: at its first checks, reading back what was just made, or at
      the check after recording it. */
  datatype DirFault = DirFine | BeforeMkdir | AfterMkdir | AfterRecord

  datatype DirStep = There | MadeNew | MadeAndStopped | Refused | Lost

  datatype Mutation = Mutation(path: Path, previous: Option<Node>, installed: Option<Node>, owned: bool)

  datatype Outcome = Returned(installed: Option<Node>) | ThrewBefore | ThrewCommitted(installed: Option<Node>)

  /** What a file should look like after a successful commit. */
  function Wanted(f: Planned, latest: Option<Node>): Option<Node> {
    if f.skip || (latest.Some? && latest.value.Dir?) then latest
    else
      var content := if latest.Some? then Some(latest.value.content) else None;
      match f.render(content)
      case Unchanged => latest
      case Write(c) => if content == Some(c) then latest else Some(File(0, c, f.mode))
      case Delete => None
  }

  /** The content rendering looks at. */
  function ContentOf(node: Option<Node>): Option<string> {
    if node.Some? && node.value.File? then Some(node.value.content) else None
  }

  /** Whether a file step changes what it finds. */
  predicate Mutates(node: Option<Node>, f: Planned) {
    match f.render(ContentOf(node))
    case Unchanged => false
    case Write(c) => ContentOf(node) != Some(c)
    case Delete => true
  }

  /**
    Whether a file step goes through, given what is at its path and whether its parent is a
    directory: a deletion needs something to delete, and where the step changes something no fault
    is survived.
   */
  predicate Goes(housed: bool, node: Option<Node>, f: Planned, fault: FileFault) {
    f.skip
    || (&& housed && f.path.In? && FileOrNothing(node) && fault != BeforePublication
        && (Mutates(node, f) ==> fault == NoFault && (f.render(ContentOf(node)).Delete? ==> node.Some?)))
  }

  predicate GoesIn(t: Tree, f: Planned, fault: FileFault) {
    Goes(f.path.In? && IsDir(t, f.path.dir), At(t, f.path), f, fault)
  }

  /** The same once the planned directories are in place, from the tree before them. */
  predicate GoesAfter(t: Tree, directories: seq<Path>, f: Planned, fault: FileFault) {
    f.skip
    || (f.path !in directories && f.path.In?
        && Goes(IsDir(t, f.path.dir) || f.path.dir in directories, At(t, f.path), f, fault))
  }

  ghost predicate DistinctPaths(ms: seq<Mutation>) {
    forall i, j | 0 <= i < j < |ms| :: ms[i].path != ms[j].path
  }

  ghost predicate DistinctFiles(files: seq<Planned>) {
    forall i: nat, j: nat | i < j < |files| :: files[i].path != files[j].path
  }

  predicate Owns(ms: seq<Mutation>, p: Path) {
    exists m <- ms :: m.owned && m.path == p
  }

  /** A mutation record that could be undone: files or absence, in a directory that was there. */
  predicate Sound(base: Tree, m: Mutation) {
    m.owned ==>
      && m.previous == At(base, m.path) && FileOrNothing(m.previous) && FileOrNothing(m.installed)
      && (m.previous.Some? || m.installed.Some?) && m.path.In? && IsDir(base, m.path.dir)
  }

  /** The records from `k` on are undone, the ones before are in place, and nothing else differs. */
  ghost predicate Undone(base: Tree, t: Tree, ms: seq<Mutation>, k: nat) {
    && DistinctPaths(ms) && (forall i: nat | i < |ms| :: Sound(base, ms[i]))
    && (forall i: nat | i < k && i < |ms| :: ms[i].owned ==> ms[i].installed == At(t, ms[i].path))
    && (forall i: nat | k <= i < |ms| :: ms[i].owned ==> SameSight(At(t, ms[i].path), ms[i].previous))
    && (forall p: Path :: !Owns(ms, p) ==> At(t, p) == At(base, p))
  }

  /** `t` differs from `base` exactly by the owned mutations. */
  ghost predicate Applied(base: Tree, t: Tree, ms: seq<Mutation>) {
    Undone(base, t, ms, |ms|)
  }

  predicate FileOrNothing(n: Option<Node>) {
    n.Some? ==> n.value.File?
  }

  /** The directories made so far: new, distinct, each inside the base or an earlier one. */
  ghost predicate Made(base: Tree, created: seq<Path>) {
    && (forall i: nat | i < |created| :: created[i] !in base)
    && (forall i: nat, j: nat | i < j < |created| :: created[i] != created[j])
    && (forall i: nat {:trigger MadeInside(base, created, i)} | i < |created| :: MadeInside(base, created, i))
  }

  predicate MadeInside(base: Tree, created: seq<Path>, i: nat)
    requires i < |created|
  {
    created[i].In? && (created[i].dir in base || created[i].dir in created[..i])
  }

  /** `t` is the base with those directories and nothing else. */
  ghost predicate WithDirectories(base: Tree, t: Tree, created: seq<Path>) {
    forall p: Path :: if p in created then IsDir(t, p) else SameSight(At(t, p), At(base, p))
  }

  // ---- which plans leak ----

  /** A directory once the first `i` planned ones are in place. */
  predicate Available(t: Tree, planned: seq<Path>, i: nat, p: Path)
    requires i <= |planned|
  {
    IsDir(t, p) || p in planned[..i]
  }

  /** Step `i` finds a free name in a directory. */
  predicate Creatable(t: Tree, planned: seq<Path>, i: nat)
    requires i < |planned|
  {
    && planned[i] !in t && planned[i] !in planned[..i]
    && planned[i].In? && Available(t, planned, i, planned[i].dir)
  }

  /** Step `i` goes on to the next, the directory being there or made. */
  predicate Passes(t: Tree, planned: seq<Path>, faults: nat -> DirFault, i: nat)
    requires i < |planned|
  {
    if Available(t, planned, i, planned[i]) then faults(i) != BeforeMkdir
    else faults(i) == DirFine && Creatable(t, planned, i)
  }

  /** The first step that does not pass makes a directory and cannot read it back. */
  ghost predicate LeaksAt(t: Tree, planned: seq<Path>, faults: nat -> DirFault, i: nat) {
    && i < |planned| && (forall j: nat | j < i :: Passes(t, planned, faults, j))
    && Creatable(t, planned, i) && !IsDir(t, planned[i]) && faults(i) == AfterMkdir
  }

  ghost predicate Leaks(t: Tree, planned: seq<Path>, faults: nat -> DirFault) {
    exists i: nat :: LeaksAt(t, planned, faults, i)
  }

  /** The shape of the tree once the first `i` planned directories are in place. */
  ghost predicate Shape(base: Tree, t: Tree, planned: seq<Path>, i: nat)
    requires i <= |planned|
  {
    && (forall q: Path :: IsDir(t, q) <==> Available(base, planned, i, q))
    && (forall q: Path :: q in t <==> q in base || q in planned[..i])
  }

  lemma ShapeGrows(base: Tree, t: Tree, planned: seq<Path>, i: nat, t': Tree)
    requires i < |planned| && Shape(base, t, planned, i)
    requires if IsDir(t, planned[i]) then t' == t
             else planned[i] !in t && exists ino :: t' == t[planned[i] := Dir(ino)]
    ensures Shape(base, t', planned, i + 1)
  {
    assert planned[..i + 1] == planned[..i] + [planned[i]];
    forall q: Path
      ensures IsDir(t', q) <==> Available(base, planned, i + 1, q)
      ensures q in t' <==> q in base || q in planned[..i + 1]
    {
      assert IsDir(t, q) <==> Available(base, planned, i, q);
      assert q in t <==> q in base || q in planned[..i];
    }
  }

  /** The first `i` planned directories are in place, `created` of them made, and nothing else has changed. */
  ghost predicate Preparing(base: Tree, t: Tree, planned: seq<Path>, i: nat, created: seq<Path>)
    requires i <= |planned|
  {
    && Closed(t) && Made(base, created) && WithDirectories(base, t, created) && Shape(base, t, planned, i)
    && (forall p <- created :: p in planned) && OnlyThese(base, t, created)
  }

  ghost predicate OnlyThese(base: Tree, t: Tree, created: seq<Path>) {
    forall p: Path :: p !in created ==> At(t, p) == At(base, p)
  }

  lemma OneMorePrepared(base: Tree, before: Tree, planned: seq<Path>, i: nat, created: seq<Path>, after: Tree)
    requires i < |planned| && Preparing(base, before, planned, i, created)
    requires var p := planned[i];
             if IsDir(before, p) then after == before
             else p !in before && p.In? && IsDir(before, p.dir) && exists ino :: after == before[p := Dir(ino)]
    ensures var p := planned[i];
            if IsDir(before, p) then Preparing(base, after, planned, i + 1, created)
            else p !in base && p !in created && p in after && Preparing(base, after, planned, i + 1, created + [p])
  {
    var p := planned[i];
    ShapeGrows(base, before, planned, i, after);
    if !IsDir(before, p) {
      MadeOneMore(base, before, created, p, after);
      var more := created + [p];
      forall q: Path | q !in more ensures At(after, q) == At(base, q) { assert q !in created && At(before, q) == At(base, q); }
    }
  }

  /** What step `i` will do, from the shape of the tree. */
  lemma StepFrom(base: Tree, t: Tree, planned: seq<Path>, faults: nat -> DirFault, i: nat)
    requires i < |planned| && Shape(base, t, planned, i)
    ensures var p := planned[i];
            var free := p !in t && p.In? && IsDir(t, p.dir);
            && (Passes(base, planned, faults, i) <==>
                  if IsDir(t, p) then faults(i) != BeforeMkdir else free && faults(i) == DirFine)
            && (Creatable(base, planned, i) && !IsDir(base, p) <==> free)
  {
  }

  lemma LeakDoesNotPass(t: Tree, planned: seq<Path>, faults: nat -> DirFault, k: nat)
    requires LeaksAt(t, planned, faults, k)
    ensures !Passes(t, planned, faults, k)
  {
  }

  /** At most the first step that stops can leak. */
  lemma StopsAt(t: Tree, planned: seq<Path>, faults: nat -> DirFault, i: nat)
    requires i < |planned| && (forall j: nat | j < i :: Passes(t, planned, faults, j)) && !Passes(t, planned, faults, i)
    ensures Leaks(t, planned, faults) <==> LeaksAt(t, planned, faults, i)
  {
    forall k: nat | LeaksAt(t, planned, faults, k) ensures k == i {
      LeakDoesNotPass(t, planned, faults, k);
    }
  }

  lemma NeverStops(t: Tree, planned: seq<Path>, faults: nat -> DirFault)
    requires forall j: nat | j < |planned| :: Passes(t, planned, faults, j)
    ensures !Leaks(t, planned, faults)
  {
    forall k: nat ensures !LeaksAt(t, planned, faults, k) {
      if k < |planned| { assert Passes(t, planned, faults, k); }
    }
  }

  /** The smallest plan that leaks: one directory under the root, made and not read back. */
  lemma LeakExample()
    ensures Leaks(map[Root := Dir(0)], [In(Root, "a")], (i: nat) => AfterMkdir)
    ensures !Leaks(map[Root := Dir(0)], [In(Root, "a")], (i: nat) => if i == 7 then AfterMkdir else DirFine)
  {
    var t: Tree := map[Root := Dir(0)];
    var planned := [In(Root, "a")];
    assert planned[..0] == [];
    assert LeaksAt(t, planned, (i: nat) => AfterMkdir, 0);
  }

  // ---- the disk ----

  class Disk {
    var tree: Tree
    var next: nat

    method Mkdir(p: Path) returns (ok: bool)
      modifies this
      ensures ok <==> p.In? && p !in old(tree) && IsDir(old(tree), p.dir)
      ensures ok ==> tree == old(tree)[p := Dir(old(next))] && next == old(next) + 1
      ensures !ok ==> tree == old(tree) && next == old(next)
    {
      ok := p.In? && p !in tree && IsDir(tree, p.dir);
      if ok {
        tree := tree[p := Dir(next)];
        next := next + 1;
      }
    }

    method Rmdir(p: Path) returns (ok: bool)
      modifies this`tree
      ensures ok <==> IsDir(old(tree), p) && forall q <- old(tree) :: q.Root? || q.dir != p
      ensures tree == if ok then old(tree) - {p} else old(tree)
    {
      ok := IsDir(tree, p) && forall q <- tree :: q.Root? || q.dir != p;
      if ok {
        tree := tree - {p};
      }
    }

    /** `atomicReplaceTextWithGuard`, failing before publication or with a committed error. */
    method Replace(p: Path, content: string, mode: nat, expected: Option<Node>, fault: FileFault) returns (out: Outcome)
      modifies this
      ensures var able := p.In? && IsDir(old(tree), p.dir) && At(old(tree), p) == expected && FileOrNothing(expected)
                          && fault != BeforePublication;
              var node := File(old(next), content, mode);
              if able then tree == old(tree)[p := node] && next == old(next) + 1
                           && out == (if fault == CommittedError then ThrewCommitted(Some(node)) else Returned(Some(node)))
              else tree == old(tree) && out == ThrewBefore
    {
      if p.Root? || !IsDir(tree, p.dir) || At(tree, p) != expected || !FileOrNothing(expected) || fault == BeforePublication {
        return ThrewBefore;
      }
      var node := File(next, content, mode);
      tree := tree[p := node];
      next := next + 1;
      out := if fault == CommittedError then ThrewCommitted(Some(node)) else Returned(Some(node));
    }

    /** `unlinkRegularFileIfUnchanged` */
    method Unlink(p: Path, expected: Node, fault: FileFault) returns (out: Outcome)
      modifies this`tree
      ensures var able := p.In? && At(old(tree), p) == Some(expected) && expected.File? && fault != BeforePublication;
              if able then tree == old(tree) - {p}
                           && out == (if fault == CommittedError then ThrewCommitted(None) else Returned(None))
              else tree == old(tree) && out == ThrewBefore
    {
      if p.Root? || At(tree, p) != Some(expected) || !expected.File? || fault == BeforePublication {
        return ThrewBefore;
      }
      tree := tree - {p};
      out := if fault == CommittedError then ThrewCommitted(None) else Returned(None);
    }

    // ---- directories ----

    /** One planned directory: there already, made, made and then stopped, refused, or made and not read back. */
    method PrepareOne(p: Path, fault: DirFault) returns (step: DirStep)
      modifies this
      ensures var free := p !in old(tree) && p.In? && IsDir(old(tree), p.dir);
              step == if fault == BeforeMkdir then Refused
                      else if IsDir(old(tree), p) then There
                      else if !free then Refused
                      else if fault == AfterMkdir then Lost else if fault == AfterRecord then MadeAndStopped else MadeNew
      ensures tree == if step == There || step == Refused then old(tree) else old(tree)[p := Dir(old(next))]
    {
      if fault == BeforeMkdir { return Refused; }
      if IsDir(tree, p) { return There; }
      if p in tree { return Refused; }
      var made := Mkdir(p);
      if !made { return Refused; }
      step := if fault == AfterMkdir then Lost else if fault == AfterRecord then MadeAndStopped else MadeNew;
    }

    /** `preparePlannedDirectories` over the planned directories in any order. */
    method PrepareDirectories(planned: seq<Path>, faults: nat -> DirFault)
      returns (ok: bool, created: seq<Path>, leaked: Option<Path>)
      requires Closed(tree)
      modifies this
      ensures Made(old(tree), created) && Closed(tree)
      ensures leaked.None? ==> WithDirectories(old(tree), tree, created)
      ensures leaked.None? ==> OnlyThese(old(tree), tree, created)
      ensures forall p <- created :: p in planned
      ensures leaked.Some? <==> Leaks(old(tree), planned, faults)
      ensures ok <==> forall j: nat | j < |planned| :: Passes(old(tree), planned, faults, j)
      ensures leaked.Some? ==> !ok && leaked.value !in old(tree) && leaked.value !in created && leaked.value in tree
      ensures forall p: Path | p in tree && p !in old(tree) :: p in created || leaked == Some(p)
      ensures ok ==> Shape(old(tree), tree, planned, |planned|) && forall p <- planned :: IsDir(tree, p)
    {
      created, leaked := [], None;
      var i := 0;
      while i < |planned|
        invariant 0 <= i <= |planned| && leaked == None && Preparing(old(tree), tree, planned, i, created)
        invariant forall j: nat | j < i :: Passes(old(tree), planned, faults, j)
      {
        ghost var before := tree;
        StepFrom(old(tree), tree, planned, faults, i);
        var step := PrepareOne(planned[i], faults(i));
        if !Passes(old(tree), planned, faults, i) { StopsAt(old(tree), planned, faults, i); }
        if step == Refused {
          return false, created, None;
        }
        OneMorePrepared(old(tree), before, planned, i, created, tree);
        if step == Lost {
          return false, created, Some(planned[i]);
        }
        if step != There {
          created := created + [planned[i]];
        }
        if step == MadeAndStopped {
          return false, created, None;
        }
        i := i + 1;
      }
      assert planned[..i] == planned;
      NeverStops(old(tree), planned, faults);
      ok := true;
    }

    /** `removeCreatedDirectories`: in reverse, counting what could not be removed. */
    method RemoveCreated(ghost base: Tree, created: seq<Path>) returns (failures: nat)
      modifies this`tree
      ensures forall p: Path :: p !in created ==> At(tree, p) == At(old(tree), p)
      ensures Closed(base) && Made(base, created) && WithDirectories(base, old(tree), created) ==>
                failures == 0 && SameTree(tree, base)
      ensures failures == 0 ==> forall p <- created :: p !in tree
    {
      failures := 0;
      ghost var regular := Closed(base) && Made(base, created) && WithDirectories(base, tree, created);
      assert created[..|created|] == created;
      var k := |created|;
      while k > 0
        invariant 0 <= k <= |created|
        invariant forall p: Path :: p !in created ==> At(tree, p) == At(old(tree), p)
        invariant regular ==> failures == 0 && WithDirectories(base, tree, created[..k])
        invariant failures == 0 ==> forall j | k <= j < |created| :: created[j] !in tree
      {
        if regular {
          LastMadeIsEmpty(base, tree, created, k);
          LastMadeRemoved(base, tree, created, k);
        }
        assert created[k - 1] in created;
        var removed := Rmdir(created[k - 1]);
        if !removed {
          failures := failures + 1;
        }
        k := k - 1;
      }
      if regular {
        assert forall p: Path :: p !in created[..0];
      }
    }

    /** One planned file; `m` is what rollback is told, if anything. */
    method CommitFile(f: Planned, fault: FileFault) returns (ok: bool, m: Option<Mutation>)
      requires Closed(tree)
      modifies this
      ensures Closed(tree) && ChangedAt(old(tree), tree, f.path)
      ensures m.None? ==> !ok && tree == old(tree)
      ensures m.Some? ==> m.value.path == f.path && (if m.value.owned then m.value.installed == At(tree, f.path) else tree == old(tree))
      ensures m.Some? && m.value.owned ==>
                && m.value.previous == At(old(tree), f.path) && FileOrNothing(m.value.previous) && FileOrNothing(m.value.installed)
                && (m.value.previous.Some? || m.value.installed.Some?) && f.path.In? && IsDir(old(tree), f.path.dir)
      ensures ok ==> SameSight(At(tree, f.path), Wanted(f.(skip := false), At(old(tree), f.path)))
      ensures ok <==> GoesIn(old(tree), f.(skip := false), fault)
      ensures m.Some? && m.value.owned ==> Mutates(At(old(tree), f.path), f)
    {
      if f.path.Root? || !IsDir(tree, f.path.dir) || fault == BeforePublication {
        return false, None;
      }
      var latest := At(tree, f.path);
      if latest.Some? && latest.value.Dir? {
        return false, None;
      }
      var content := if latest.Some? then Some(latest.value.content) else None;
      var rendered := f.render(content);
      if rendered.Unchanged? || (rendered.Write? && content == Some(rendered.content)) {
        return true, Some(Mutation(f.path, latest, latest, false));
      }
      ghost var before := tree;
      var out;
      if rendered.Delete? {
        if latest.None? {
          return false, None;
        }
        out := Unlink(f.path, latest.value, fault);
      } else {
        out := Replace(f.path, rendered.content, f.mode, latest, fault);
      }
      ClosedAfterFile(before, tree, f.path);
      match out
      case ThrewBefore => return false, None;
      case ThrewCommitted(installed) => return false, Some(Mutation(f.path, latest, installed, true));
      case Returned(installed) => return fault != CleanupReported, Some(Mutation(f.path, latest, installed, true));
    }

    /** The commit loop: records every mutation that took effect before looking at its outcome. */
    method CommitFiles(files: seq<Planned>, faults: nat -> FileFault) returns (ok: bool, applied: seq<Mutation>)
      requires Closed(tree) && DistinctFiles(files)
      modifies this
      ensures Closed(tree) && Applied(old(tree), tree, applied)
      ensures ok <==> forall i: nat | i < |files| :: GoesIn(old(tree), files[i], faults(i))
      ensures forall m <- applied :: exists i: nat :: i < |files| && files[i].path == m.path && !files[i].skip
      ensures ok ==> forall i: nat | i < |files| :: SameSight(At(tree, files[i].path), Wanted(files[i], At(old(tree), files[i].path)))
    {
      applied := [];
      var i := 0;
      while i < |files|
        invariant 0 <= i <= |files| && Closed(tree) && Applied(old(tree), tree, applied)
        invariant forall m <- applied :: exists j: nat :: j < i && files[j].path == m.path && !files[j].skip
        invariant forall j: nat | j < i :: GoesIn(old(tree), files[j], faults(j))
        invariant forall j: nat | j < i ::
                    SameSight(At(tree, files[j].path), Wanted(files[j], At(old(tree), files[j].path)))
      {
        var f := files[i];
        ghost var before := tree;
        assert forall m <- applied :: m.path != f.path;
        SameStep(old(tree), tree, applied, f, faults(i));
        if !f.skip {
          var m;
          ok, m := CommitFile(f, faults(i));
          if m.Some? {
            AppliedOneMore(old(tree), before, applied, m.value, tree);
            applied := applied + [m.value];
          }
          if !ok {
            return;
          }
          assert forall j: nat | j < i :: At(tree, files[j].path) == At(before, files[j].path);
        }
        i := i + 1;
      }
      ok := true;
    }

    /** `restoreFiles`: undo the owned mutations in reverse; this phase meets no fault of its own. */
    method RestoreFiles(ghost base: Tree, applied: seq<Mutation>) returns (failures: nat)
      requires Applied(base, tree, applied)
      modifies this
      ensures failures == 0 && SameTree(tree, base)
    {
      failures := 0;
      var k := |applied|;
      while k > 0
        invariant 0 <= k <= |applied| && failures == 0 && Undone(base, tree, applied, k)
      {
        k := k - 1;
        var m := applied[k];
        ghost var before := tree;
        if m.owned {
          assert Sound(base, applied[k]);
          OwnedIsNoDirectory(base, tree, applied, k + 1, m.path.dir);
          var out;
          if m.previous.None? {
            out := Unlink(m.path, m.installed.value, NoFault);
          } else {
            out := Replace(m.path, m.previous.value.content, m.previous.value.mode, m.installed, NoFault);
          }
          failures := failures + if out.Returned? then 0 else 1;
        }
        UndoneOneMore(base, before, applied, k, tree);
      }
      AllUndone(base, tree, applied);
    }

    /**
      The whole commit. It succeeds exactly when no directory step stops, neither check of the plan
      fails and every file step goes through; then every directory and file is as planned and
      nothing else has changed. When it fails, content and mode or absence of every path and the
      identity of every directory are back as they were, and nothing is reported left behind, except
      exactly when the plan `Leaks`: the first directory step that stops makes its directory and
      fails before recording it. Then that directory stays.
     */
    method Commit(directories: seq<Path>, files: seq<Planned>, dirFaults: nat -> DirFault, fileFaults: nat -> FileFault,
                  firstCheckFails: bool, finalCheckFails: bool)
      returns (ok: bool, failures: nat, leaked: Option<Path>)
      requires Closed(tree) && DistinctFiles(files)
      modifies this
      ensures ok <==>
                && !firstCheckFails && !finalCheckFails
                && (forall j: nat | j < |directories| :: Passes(old(tree), directories, dirFaults, j))
                && (forall i: nat | i < |files| :: GoesAfter(old(tree), directories, files[i], fileFaults(i)))
      ensures !ok && !Leaks(old(tree), directories, dirFaults) ==> failures == 0 && SameTree(tree, old(tree))
      ensures Leaks(old(tree), directories, dirFaults) ==> !ok && !SameTree(tree, old(tree))
      ensures leaked.Some? <==> Leaks(old(tree), directories, dirFaults)
      ensures leaked.Some? ==> leaked.value in tree && leaked.value !in old(tree)
      ensures !ok && failures == 0 ==> forall p: Path | p in tree && p !in old(tree) :: leaked == Some(p)
      ensures ok ==> forall i: nat | i < |files| && files[i].path !in directories ::
                       SameSight(At(tree, files[i].path), Wanted(files[i], At(old(tree), files[i].path)))
      ensures ok ==> forall p <- directories :: IsDir(tree, p)
      ensures ok ==> forall p: Path | p !in directories && !Touched(files, p) :: At(tree, p) == At(old(tree), p)
    {
      ghost var start := tree;
      var created;
      failures := 0;
      ok, created, leaked := PrepareDirectories(directories, dirFaults);
      if ok {
        ghost var prepared := tree;
        var applied := [];
        forall i: nat | i < |files| { SameAfter(start, prepared, directories, created, files[i], fileFaults(i)); }
        ok := !firstCheckFails;
        if ok { ok, applied := CommitFiles(files, fileFaults); }
        if ok && !finalCheckFails {
          CommittedTree(start, prepared, tree, directories, created, files, applied);
          return;
        }
        ok := false;
        failures := RestoreFiles(prepared, applied);
        StillWithDirectories(start, prepared, tree, created);
      }
      var left := RemoveCreated(start, created);
      failures := failures + left;
      if leaked.Some? {
        assert At(tree, leaked.value).Some? && At(start, leaked.value).None?;
      }
    }
  }

  /** Some file of the plan that is not skipped lies at `p`. */
  ghost predicate Touched(files: seq<Planned>, p: Path) {
    exists i: nat :: i < |files| && files[i].path == p && !files[i].skip
  }

  /** What a file step meets after the directories, from the tree before them. */
  lemma SameAfter(start: Tree, prepared: Tree, directories: seq<Path>, created: seq<Path>, f: Planned, fault: FileFault)
    requires Shape(start, prepared, directories, |directories|) && (forall p <- directories :: IsDir(prepared, p))
    requires (forall p <- created :: p in directories) && OnlyThese(start, prepared, created)
    ensures GoesIn(prepared, f, fault) <==> GoesAfter(start, directories, f, fault)
  {
    assert directories[..|directories|] == directories;
    if f.path.In? { assert IsDir(prepared, f.path.dir) <==> Available(start, directories, |directories|, f.path.dir); }
  }

  /** After a successful commit nothing but the planned paths has changed, and the directories are there. */
  lemma CommittedTree(start: Tree, prepared: Tree, t: Tree, directories: seq<Path>, created: seq<Path>, files: seq<Planned>,
                      applied: seq<Mutation>)
    requires Applied(prepared, t, applied) && (forall p <- directories :: IsDir(prepared, p))
    requires (forall p <- created :: p in directories) && OnlyThese(start, prepared, created)
    requires forall m <- applied :: exists i: nat :: i < |files| && files[i].path == m.path && !files[i].skip
    ensures forall p <- directories :: IsDir(t, p)
    ensures forall p: Path | p !in directories && !Touched(files, p) :: At(t, p) == At(start, p)
  {
    forall p <- directories ensures IsDir(t, p) { OwnedIsNoDirectory(prepared, t, applied, |applied|, p); }
    forall p: Path | p !in directories && !Touched(files, p) ensures At(t, p) == At(start, p) {
      forall m <- applied ensures m.path != p {
        var i: nat :| i < |files| && files[i].path == m.path && !files[i].skip;
      }
      NotOwned(prepared, t, applied, p);
    }
  }

  // ---- records ----

  /** `after` is `before` with another node at `p`. */
  ghost predicate ChangedAt(before: Tree, after: Tree, p: Path) {
    forall q: Path :: q != p ==> At(after, q) == At(before, q)
  }

  /** A path that holds a file or nothing before and after leaves every directory alone. */
  lemma ClosedAfterFile(before: Tree, after: Tree, p: Path)
    requires Closed(before) && ChangedAt(before, after, p) && p.In? && IsDir(before, p.dir)
    requires FileOrNothing(At(before, p)) && FileOrNothing(At(after, p))
    ensures Closed(after)
  {
    forall q: Path | q in after ensures Housed(after, q) {
      if q != p {
        assert At(after, q) == At(before, q) && Housed(before, q);
      }
      if q.In? {
        assert q.dir != p ==> At(after, q.dir) == At(before, q.dir);
      }
    }
  }

  /** An owned path held a file or nothing, and still does while its record is in place. */
  lemma OwnedHoldsFile(base: Tree, t: Tree, ms: seq<Mutation>, k: nat, p: Path)
    requires Undone(base, t, ms, k) && Owns(ms, p)
    ensures FileOrNothing(At(base, p)) && (k >= |ms| ==> FileOrNothing(At(t, p)))
  {
    var m :| m in ms && m.owned && m.path == p;
    var i: nat :| i < |ms| && ms[i] == m;
    assert Sound(base, ms[i]);
  }

  lemma OwnedIsNoDirectory(base: Tree, t: Tree, ms: seq<Mutation>, k: nat, d: Path)
    requires Undone(base, t, ms, k) && IsDir(base, d)
    ensures !Owns(ms, d) && IsDir(t, d)
  {
    if Owns(ms, d) {
      OwnedHoldsFile(base, t, ms, k, d);
    }
    assert At(t, d) == At(base, d);
  }

  lemma DirectoryWasThere(base: Tree, t: Tree, ms: seq<Mutation>, d: Path)
    requires Applied(base, t, ms) && IsDir(t, d)
    ensures IsDir(base, d)
  {
    if Owns(ms, d) {
      OwnedHoldsFile(base, t, ms, |ms|, d);
    } else {
      assert At(t, d) == At(base, d);
    }
  }

  /** A file step meets what it would have met before the others. */
  lemma SameStep(base: Tree, t: Tree, ms: seq<Mutation>, f: Planned, fault: FileFault)
    requires Applied(base, t, ms) && forall m <- ms :: m.path != f.path
    ensures At(t, f.path) == At(base, f.path) && (GoesIn(t, f, fault) <==> GoesIn(base, f, fault))
  {
    NotOwned(base, t, ms, f.path);
    if f.path.In? {
      if IsDir(base, f.path.dir) { OwnedIsNoDirectory(base, t, ms, |ms|, f.path.dir); }
      if IsDir(t, f.path.dir) { DirectoryWasThere(base, t, ms, f.path.dir); }
    }
  }

  lemma NotOwned(base: Tree, t: Tree, ms: seq<Mutation>, p: Path)
    requires Applied(base, t, ms) && forall k: nat | k < |ms| :: ms[k].path != p
    ensures At(t, p) == At(base, p)
  {
    assert !Owns(ms, p);
  }

  lemma StillWithDirectories(start: Tree, prepared: Tree, t: Tree, created: seq<Path>)
    requires WithDirectories(start, prepared, created) && SameTree(t, prepared)
    ensures WithDirectories(start, t, created)
  {
    forall p: Path ensures if p in created then IsDir(t, p) else SameSight(At(t, p), At(start, p)) {
      assert SameSight(At(t, p), At(prepared, p));
      assert if p in created then IsDir(prepared, p) else SameSight(At(prepared, p), At(start, p));
    }
  }

  lemma OwnsAppend(ms: seq<Mutation>, m: Mutation, p: Path)
    ensures Owns(ms + [m], p) <==> Owns(ms, p) || (m.owned && m.path == p)
  {
    assert m in ms + [m];
  }

  /** Recording one more mutation of a path not recorded yet. */
  lemma AppliedOneMore(base: Tree, before: Tree, ms: seq<Mutation>, m: Mutation, after: Tree)
    requires Applied(base, before, ms) && (forall i: nat | i < |ms| :: ms[i].path != m.path)
    requires if m.owned then ChangedAt(before, after, m.path) && m.installed == At(after, m.path) else after == before
    requires m.owned ==>
               && m.previous == At(before, m.path) && FileOrNothing(m.previous) && FileOrNothing(m.installed)
               && (m.previous.Some? || m.installed.Some?) && m.path.In? && IsDir(before, m.path.dir)
    ensures Applied(base, after, ms + [m])
  {
    forall p: Path ensures Owns(ms + [m], p) <==> Owns(ms, p) || (m.owned && m.path == p) { OwnsAppend(ms, m, p); }
    assert !Owns(ms, m.path);
    assert At(before, m.path) == At(base, m.path);
    if m.owned { DirectoryWasThere(base, before, ms, m.path.dir); }
    assert Sound(base, m);
    forall i: nat | i < |ms| ensures Sound(base, (ms + [m])[i]) {
      assert Sound(base, ms[i]);
    }
  }

  lemma UndoneOneMore(base: Tree, before: Tree, ms: seq<Mutation>, k: nat, after: Tree)
    requires k < |ms| && Undone(base, before, ms, k + 1)
    requires if ms[k].owned then ChangedAt(before, after, ms[k].path) && SameSight(At(after, ms[k].path), ms[k].previous)
             else after == before
    ensures Undone(base, after, ms, k)
  {
    assert ms[k] in ms;
    if ms[k].owned {
      assert Owns(ms, ms[k].path);
      forall i: nat | i < |ms| && i != k ensures At(after, ms[i].path) == At(before, ms[i].path) {
        assert ms[i].path != ms[k].path;
      }
    }
  }

  lemma AllUndone(base: Tree, t: Tree, ms: seq<Mutation>)
    requires Undone(base, t, ms, 0)
    ensures SameTree(t, base)
  {
    forall p: Path ensures SameSight(At(t, p), At(base, p)) {
      if Owns(ms, p) {
        var m :| m in ms && m.owned && m.path == p;
        var i: nat :| i < |ms| && ms[i] == m;
        assert Sound(base, ms[i]);
      }
    }
  }

  // ---- directories ----

  /** The directory made last is empty once the later ones are gone. */
  lemma LastMadeIsEmpty(base: Tree, t: Tree, created: seq<Path>, k: nat)
    requires Closed(base) && Made(base, created) && 0 < k <= |created| && WithDirectories(base, t, created[..k])
    ensures IsDir(t, created[k - 1]) && forall q <- t :: q.Root? || q.dir != created[k - 1]
  {
    var p := created[k - 1];
    assert created[..k][k - 1] == p && p in created[..k];
    forall q | q in t && q.In? ensures q.dir != p {
      if q in created[..k] {
        var j: nat :| j < k && created[j] == q;
        assert MadeInside(base, created, j);
        if q.dir in created[..j] {
          var i: nat :| i < j && created[i] == q.dir;
        }
      } else {
        assert SameSight(At(t, q), At(base, q));
        assert Housed(base, q);
      }
    }
  }

  lemma LastMadeRemoved(base: Tree, t: Tree, created: seq<Path>, k: nat)
    requires Made(base, created) && 0 < k <= |created| && WithDirectories(base, t, created[..k])
    ensures WithDirectories(base, t - {created[k - 1]}, created[..k - 1])
  {
    var p, t' := created[k - 1], t - {created[k - 1]};
    assert created[..k] == created[..k - 1] + [p];
    forall q: Path ensures if q in created[..k - 1] then IsDir(t', q) else SameSight(At(t', q), At(base, q)) {
      assert q != p ==> At(t', q) == At(t, q);
      assert if q in created[..k] then IsDir(t, q) else SameSight(At(t, q), At(base, q));
    }
  }

  lemma MadeOneMore(base: Tree, before: Tree, created: seq<Path>, p: Path, after: Tree)
    requires Made(base, created) && WithDirectories(base, before, created) && Closed(before)
    requires p.In? && p !in before && IsDir(before, p.dir) && after.Keys == before.Keys + {p} && after[p].Dir?
    requires forall q <- before :: after[q] == before[q]
    ensures Made(base, created + [p]) && WithDirectories(base, after, created + [p]) && Closed(after)
    ensures p !in base && p !in created
  {
    assert p !in created && p !in base by {
      assert if p in created then IsDir(before, p) else SameSight(At(before, p), At(base, p));
    }
    assert p.dir in created || p.dir in base by {
      assert if p.dir in created then IsDir(before, p.dir) else SameSight(At(before, p.dir), At(base, p.dir));
    }
    var more := created + [p];
    forall i: nat | i < |more| ensures MadeInside(base, more, i) {
      if i < |created| {
        assert MadeInside(base, created, i) && more[..i] == created[..i];
      } else {
        assert more[..i] == created;
      }
    }
    forall q: Path ensures if q in more then IsDir(after, q) else SameSight(At(after, q), At(base, q)) {
      assert q != p ==> At(after, q) == At(before, q);
      assert if q in created then IsDir(before, q) else SameSight(At(before, q), At(base, q));
    }
    forall q: Path | q in after ensures Housed(after, q) {
      assert q != p ==> Housed(before, q);
    }
  }
}
