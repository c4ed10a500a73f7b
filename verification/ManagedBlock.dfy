/**
  The marked region an agent file gives up to the tool (src/agent-file/managed-block.ts:26-126).
 */
module ManagedBlock {
  import opened Options

  datatype Markers = Markers(begin: string, end: string)

  const BLOCK := "KIOKUKO-AI " + "MANAGED " + "BLOCK --"
  const KIOKUKO := Markers("<" + ("!-- BEGIN " + BLOCK) + ">", "<" + ("!-- END " + BLOCK) + ">")

  /** Text with no angle bracket and no line break. */
  predicate Plain(s: string) {
    forall i | 0 <= i < |s| :: s[i] != '<' && s[i] != '>' && s[i] != '\n' && s[i] != '\r'
  }

  /** A comment on one line: one opening bracket, at its start, and one closing, at its end. */
  predicate Comment(s: string) {
    |s| >= 2 && s[0] == '<' && s[|s| - 1] == '>' && Plain(s[1..|s| - 1])
  }

  predicate Proper(m: Markers) {
    Comment(m.begin) && Comment(m.end) && m.begin != m.end
  }

  lemma CommentChars(s: string)
    requires Comment(s)
    ensures forall i | 0 < i < |s| :: s[i] != '<'
    ensures forall i | 0 <= i < |s| - 1 :: s[i] != '>'
    ensures forall i | 0 <= i < |s| :: s[i] != '\n' && s[i] != '\r'
  {
    forall i | 0 < i < |s| - 1 ensures s[i] == s[1..|s| - 1][i - 1] {
    }
  }

  lemma PlainComment(s: string)
    requires Plain(s)
    ensures Comment("<" + s + ">")
  {
    var c := "<" + s + ">";
    assert c[1..|c| - 1] == s;
  }

  lemma KiokukoIsProper()
    ensures Proper(KIOKUKO)
  {
    assert Plain("!-- BEGIN ") && Plain("!-- END ");
    assert Plain("KIOKUKO-AI ") && Plain("MANAGED ") && Plain("BLOCK --");
    assert Plain(BLOCK);
    PlainComment("!-- BEGIN " + BLOCK);
    PlainComment("!-- END " + BLOCK);
    assert KIOKUKO.begin[5] == 'B' && KIOKUKO.end[5] == 'E';
  }

  // ---- finding markers ----

  predicate Occurs(t: string, s: string, p: nat) {
    p + |s| <= |t| && t[p..p + |s|] == s
  }

  /** All positions from `from` on, ascending. */
  function Positions(t: string, s: string, from: nat): seq<nat>
    decreases |t| - from
  {
    if from + |s| > |t| || from >= |t| then []
    else (if Occurs(t, s, from) then [from] else []) + Positions(t, s, from + 1)
  }

  lemma {:induction false} PositionsMembers(t: string, s: string, from: nat, p: nat)
    requires s != []
    ensures p in Positions(t, s, from) <==> p >= from && Occurs(t, s, p)
    decreases |t| - from
  {
    if from + |s| <= |t| && from < |t| {
      var here := if Occurs(t, s, from) then [from] else [];
      assert Positions(t, s, from) == here + Positions(t, s, from + 1);
      PositionsMembers(t, s, from + 1, p);
    } else {
      assert Positions(t, s, from) == [];
    }
  }

  lemma {:induction false} PositionsSkip(t: string, s: string, from: nat, n: nat)
    requires s != [] && forall p | from <= p < from + n :: !Occurs(t, s, p)
    ensures Positions(t, s, from) == Positions(t, s, from + n)
    decreases n
  {
    if n > 0 {
      PositionsSkip(t, s, from + 1, n - 1);
    }
  }

  /** `String.indexOf` */
  function IndexOf(t: string, s: string, from: nat): (r: Option<nat>)
    ensures r.None? ==> forall p | p >= from :: !Occurs(t, s, p)
    ensures r.Some? ==> r.value >= from && Occurs(t, s, r.value) && forall p | from <= p < r.value :: !Occurs(t, s, p)
    decreases |t| - from
  {
    if from + |s| > |t| then None
    else if Occurs(t, s, from) then Some(from)
    else IndexOf(t, s, from + 1)
  }

  lemma OccursAt(t: string, s: string, p: nat, k: nat)
    requires Occurs(t, s, p) && k < |s|
    ensures t[p + k] == s[k]
  {
    assert t[p..p + |s|][k] == t[p + k];
  }

  /** A comment cannot overlap itself or another. */
  lemma CommentsApart(t: string, a: string, b: string, p: nat, q: nat)
    requires Comment(a) && Comment(b) && Occurs(t, a, p) && Occurs(t, b, q) && p < q
    ensures p + |a| <= q
  {
    CommentChars(a);
    OccursAt(t, b, q, 0);
    if q < p + |a| {
      OccursAt(t, a, p, q - p);
    }
  }

  /** `markerPositions`: the scan that jumps over each marker found finds every one. */
  method MarkerPositions(t: string, s: string) returns (positions: seq<nat>)
    requires Comment(s)
    ensures positions == Positions(t, s, 0)
  {
    positions := [];
    var from := 0;
    while true
      invariant from <= |t| && Scanned(t, s, positions, from)
      decreases |t| - from
    {
      var index := IndexOf(t, s, from);
      ScanStep(t, s, positions, from);
      if index.None? {
        return;
      }
      positions := positions + [index.value];
      from := index.value + |s|;
    }
  }

  /** The scan has found every marker before `from`. */
  ghost predicate Scanned(t: string, s: string, positions: seq<nat>, from: nat) {
    positions + Positions(t, s, from) == Positions(t, s, 0)
  }

  lemma ScanStep(t: string, s: string, positions: seq<nat>, from: nat)
    requires Comment(s) && Scanned(t, s, positions, from)
    ensures match IndexOf(t, s, from)
            case None => positions == Positions(t, s, 0)
            case Some(i) => from <= i && i + |s| <= |t| && Scanned(t, s, positions + [i], i + |s|)
  {
    match IndexOf(t, s, from)
    case None =>
      NoPositions(t, s, from);
    case Some(i) =>
      PositionsAfter(t, s, from, i);
      assert positions + ([i] + Positions(t, s, i + |s|)) == positions + [i] + Positions(t, s, i + |s|);
  }

  /** After the first marker found, the next can only start behind it. */
  lemma PositionsAfter(t: string, s: string, from: nat, i: nat)
    requires Comment(s) && from <= i && Occurs(t, s, i) && forall p | from <= p < i :: !Occurs(t, s, p)
    ensures Positions(t, s, from) == [i] + Positions(t, s, i + |s|)
  {
    PositionsSkip(t, s, from, i - from);
    forall p: nat | i + 1 <= p < i + |s| ensures !Occurs(t, s, p) {
      if Occurs(t, s, p) { CommentsApart(t, s, s, i, p); }
    }
    PositionsSkip(t, s, i + 1, |s| - 1);
  }

  lemma NoPositions(t: string, s: string, from: nat)
    requires s != [] && forall p | p >= from :: !Occurs(t, s, p)
    ensures Positions(t, s, from) == []
  {
    if Positions(t, s, from) != [] {
      var p := Positions(t, s, from)[0];
      assert p in Positions(t, s, from);
      PositionsMembers(t, s, from, p);
    }
  }

  // ---- the region ----

  function IsStandalone(t: string, s: string, p: nat): bool
    requires p + |s| <= |t|
  {
    && (p == 0 || t[p - 1] == '\n')
    && (var after := t[p + |s|..]; after == "" || after[0] == '\n' || (|after| >= 2 && after[0] == '\r' && after[1] == '\n'))
  }

  datatype Verdict = Absent | Region(start: nat, end: nat) | Malformed

  predicate Cuts(v: Verdict, t: string) {
    v.Region? ==> v.start <= v.end <= |t|
  }

  /** `validateMarkers`; Malformed stands for the throw. */
  function ValidateMarkers(m: Markers, t: string): (v: Verdict)
    requires Proper(m)
    ensures Cuts(v, t)
  {
    var starts, ends := Positions(t, m.begin, 0), Positions(t, m.end, 0);
    if starts == [] && ends == [] then Absent
    else if |starts| != 1 || |ends| != 1 then Malformed
    else
      PositionsMembers(t, m.begin, 0, starts[0]);
      PositionsMembers(t, m.end, 0, ends[0]);
      if starts[0] >= ends[0] || !IsStandalone(t, m.begin, starts[0]) || !IsStandalone(t, m.end, ends[0]) then Malformed
      else Region(starts[0], ends[0] + |m.end|)
  }

  /** `s` occurs at `p` and nowhere else. */
  ghost predicate Sole(t: string, s: string, p: nat) {
    Occurs(t, s, p) && forall q: nat :: Occurs(t, s, q) ==> q == p
  }

  ghost predicate Nowhere(t: string, s: string) {
    forall q: nat :: !Occurs(t, s, q)
  }

  ghost predicate NoMarkers(m: Markers, t: string) {
    Nowhere(t, m.begin) && Nowhere(t, m.end)
  }

  /** One begin marker and one end marker after it, each on a line of its own. */
  ghost predicate ValidRegion(m: Markers, t: string, start: nat, end: nat) {
    start + |m.begin| + |m.end| <= end <= |t| && OnePair(m, t, start, end) && OwnLines(m, t, start, end)
  }

  ghost predicate OnePair(m: Markers, t: string, start: nat, end: nat)
    requires |m.end| <= end
  {
    Sole(t, m.begin, start) && Sole(t, m.end, end - |m.end|)
  }

  predicate OwnLines(m: Markers, t: string, start: nat, end: nat)
    requires start + |m.begin| + |m.end| <= end <= |t|
  {
    IsStandalone(t, m.begin, start) && IsStandalone(t, m.end, end - |m.end|)
  }

  lemma SoleIffOnePosition(t: string, s: string, p: nat)
    requires s != []
    ensures Sole(t, s, p) <==> Positions(t, s, 0) == [p]
    ensures Nowhere(t, s) <==> Positions(t, s, 0) == []
  {
    var ps := Positions(t, s, 0);
    PositionsAscend(t, s, 0);
    forall i | 0 <= i < |ps| ensures Occurs(t, s, ps[i]) {
      assert ps[i] in ps;
      PositionsMembers(t, s, 0, ps[i]);
    }
    forall q: nat | Occurs(t, s, q) ensures q in ps {
      PositionsMembers(t, s, 0, q);
    }
    if ps == [p] {
      assert Occurs(t, s, ps[0]);
    }
    if Sole(t, s, p) {
      OneElement(ps, p);
    }
    if ps != [] {
      assert Occurs(t, s, ps[0]);
    }
  }

  lemma OneElement(ps: seq<nat>, p: nat)
    requires AscendingFrom(ps, 0) && p in ps && forall i: nat | i < |ps| :: ps[i] == p
    ensures ps == [p]
  {
    if |ps| > 1 { FirstTwoDiffer(ps); }
    assert ps[0] == p;
  }

  lemma FirstTwoDiffer(ps: seq<nat>)
    requires AscendingFrom(ps, 0) && |ps| > 1
    ensures ps[0] != ps[1]
  {
  }

  predicate AscendingFrom(ps: seq<nat>, from: nat) {
    (forall i: nat | i < |ps| :: ps[i] >= from) && (forall i: nat, j: nat | i < j < |ps| :: ps[i] < ps[j])
  }

  lemma {:induction false} PositionsAscend(t: string, s: string, from: nat)
    requires s != []
    ensures AscendingFrom(Positions(t, s, from), from)
    decreases |t| - from
  {
    if from + |s| <= |t| && from < |t| {
      PositionsAscend(t, s, from + 1);
      var rest := Positions(t, s, from + 1);
      assert AscendingFrom(rest, from) && AscendingFrom([from] + rest, from);
    }
  }

  /** The validator finds a region exactly where there is a valid one. */
  lemma ValidateIsExact(m: Markers, t: string, start: nat, end: nat)
    requires Proper(m)
    ensures ValidateMarkers(m, t) == Absent <==> NoMarkers(m, t)
    ensures ValidateMarkers(m, t) == Region(start, end) <==> ValidRegion(m, t, start, end)
  {
    AbsentIsExact(m, t);
    RegionIsValid(m, t, start, end);
    ValidIsRegion(m, t, start, end);
  }

  lemma AbsentIsExact(m: Markers, t: string)
    requires Proper(m)
    ensures ValidateMarkers(m, t) == Absent <==> NoMarkers(m, t)
  {
    SoleIffOnePosition(t, m.begin, 0);
    SoleIffOnePosition(t, m.end, 0);
  }

  lemma ValidIsRegion(m: Markers, t: string, start: nat, end: nat)
    requires Proper(m)
    ensures ValidRegion(m, t, start, end) ==> ValidateMarkers(m, t) == Region(start, end)
  {
    if ValidRegion(m, t, start, end) {
      SoleIffOnePosition(t, m.begin, start);
      SoleIffOnePosition(t, m.end, end - |m.end|);
    }
  }

  lemma RegionIsValid(m: Markers, t: string, start: nat, end: nat)
    requires Proper(m)
    ensures ValidateMarkers(m, t) == Region(start, end) ==> ValidRegion(m, t, start, end)
  {
    if ValidateMarkers(m, t) == Region(start, end) {
      var last: nat := end - |m.end|;
      assert Positions(t, m.begin, 0) == [start] && Positions(t, m.end, 0) == [last];
      SoleIffOnePosition(t, m.begin, start);
      SoleIffOnePosition(t, m.end, last);
      CommentsApart(t, m.begin, m.end, start, last);
    }
  }

  // ---- markers in concatenations ----

  /** No comment can reach across from `a` into `b`. */
  predicate Boundary(a: string, b: string) {
    a == "" || b == "" || a[|a| - 1] == '\n' || a[|a| - 1] == '>' || b[0] == '<' || b[0] == '\n' || b[0] == '\r'
  }

  lemma OccursLeft(a: string, b: string, s: string, q: nat)
    requires q + |s| <= |a|
    ensures Occurs(a + b, s, q) <==> Occurs(a, s, q)
  {
    assert (a + b)[q..q + |s|] == a[q..q + |s|];
  }

  lemma OccursRight(a: string, b: string, s: string, q: nat)
    ensures Occurs(a + b, s, |a| + q) <==> Occurs(b, s, q)
  {
    if q + |s| <= |b| {
      assert (a + b)[|a| + q..|a| + q + |s|] == b[q..q + |s|];
    }
  }

  lemma NoStraddle(a: string, b: string, s: string, q: nat)
    requires Comment(s) && Boundary(a, b) && Occurs(a + b, s, q)
    ensures q + |s| <= |a| || |a| <= q
  {
    if q < |a| < q + |s| {
      CommentChars(s);
      OccursAt(a + b, s, q, |a| - q - 1);
      OccursAt(a + b, s, q, |a| - q);
    }
  }

  lemma OccursSplit(a: string, b: string, s: string, q: nat)
    requires Comment(s) && Boundary(a, b)
    ensures Occurs(a + b, s, q) <==> Occurs(a, s, q) || (q >= |a| && Occurs(b, s, q - |a|))
  {
    if Occurs(a + b, s, q) {
      NoStraddle(a, b, s, q);
    }
    if q + |s| <= |a| { OccursLeft(a, b, s, q); }
    if q >= |a| { OccursRight(a, b, s, q - |a|); }
  }

  lemma NoBracketNoComment(t: string, s: string)
    requires Comment(s) && '<' !in t
    ensures Nowhere(t, s)
  {
    forall q: nat ensures !Occurs(t, s, q) {
      if Occurs(t, s, q) {
        OccursAt(t, s, q, 0);
      }
    }
  }

  lemma NowhereSplit(a: string, b: string, s: string)
    requires Comment(s) && Boundary(a, b)
    ensures Nowhere(a + b, s) <==> Nowhere(a, s) && Nowhere(b, s)
  {
    forall q: nat ensures Occurs(a + b, s, q) <==> Occurs(a, s, q) || (q >= |a| && Occurs(b, s, q - |a|)) {
      OccursSplit(a, b, s, q);
    }
    if Nowhere(a + b, s) {
      forall q: nat ensures !Occurs(a, s, q) && !Occurs(b, s, q) {
        assert !Occurs(a + b, s, q) && !Occurs(a + b, s, |a| + q);
      }
    }
  }

  /** A sole occurrence lies in one part, and the other part has none. */
  lemma SoleSplit(a: string, b: string, s: string, p: nat)
    requires Comment(s) && Boundary(a, b)
    ensures Sole(a, s, p) && Nowhere(b, s) ==> Sole(a + b, s, p)
    ensures Nowhere(a, s) && Sole(b, s, p) ==> Sole(a + b, s, |a| + p)
    ensures Sole(a + b, s, p) && p + |s| <= |a| ==> Sole(a, s, p) && Nowhere(b, s)
    ensures Sole(a + b, s, |a| + p) ==> Nowhere(a, s) && Sole(b, s, p)
  {
    forall q: nat ensures Occurs(a + b, s, q) <==> Occurs(a, s, q) || (q >= |a| && Occurs(b, s, q - |a|)) {
      OccursSplit(a, b, s, q);
    }
    forall q: nat ensures Occurs(b, s, q) ==> Occurs(a + b, s, |a| + q) {
      OccursSplit(a, b, s, |a| + q);
    }
    assert |s| > 0;
  }

  // ---- outside and inside of a region ----

  /** Text that may stand before a region: no markers, ending at the start of a line. */
  ghost predicate Before(m: Markers, pre: string) {
    NoMarkers(m, pre) && OpenEnd(pre)
  }

  /** Text that may stand after a region. */
  ghost predicate After(m: Markers, post: string) {
    NoMarkers(m, post) && OpenStart(post)
  }

  /** A block: the whole text is one valid region. */
  ghost predicate BlockOk(m: Markers, block: string) {
    ValidRegion(m, block, 0, |block|)
  }

  lemma BlockEnds(m: Markers, block: string)
    requires Proper(m) && BlockOk(m, block)
    ensures |block| >= 2 && block[0] == '<' && block[|block| - 1] == '>'
  {
    OccursAt(block, m.begin, 0, 0);
    OccursAt(block, m.end, |block| - |m.end|, |m.end| - 1);
  }

  /** Being bracketed keeps occurrences apart from what stands around. */
  predicate Bracketed(block: string) {
    block != "" && block[0] == '<' && block[|block| - 1] == '>'
  }

  lemma SoleBetween(pre: string, block: string, post: string, s: string, p: nat)
    requires Comment(s) && Bracketed(block) && p + |s| <= |block|
    ensures Sole(pre + block + post, s, |pre| + p) <==> Nowhere(pre, s) && Sole(block, s, p) && Nowhere(post, s)
  {
    SoleSplit(pre, block, s, p);
    SoleSplit(pre + block, post, s, |pre| + p);
  }

  /** Standing alone in the whole text is standing alone at the edges of the parts. */
  lemma StandaloneBegin(pre: string, block: string, post: string, s: string)
    requires |s| + 2 <= |block| && s != ""
    ensures IsStandalone(pre + block + post, s, |pre|) <==>
              IsStandalone(block, s, 0) && (pre == "" || pre[|pre| - 1] == '\n')
  {
    var t := pre + block + post;
    assert t[|pre| + |s|..] == block[|s|..] + post;
    assert |pre| > 0 ==> t[|pre| - 1] == pre[|pre| - 1];
  }

  lemma StandaloneEnd(pre: string, block: string, post: string, s: string)
    requires |s| < |block|
    ensures IsStandalone(pre + block + post, s, |pre| + |block| - |s|) <==>
              && IsStandalone(block, s, |block| - |s|)
              && (post == "" || post[0] == '\n' || (|post| >= 2 && post[0] == '\r' && post[1] == '\n'))
  {
    var t := pre + block + post;
    var p := |pre| + |block| - |s|;
    assert t[p + |s|..] == post && block[|block|..] == "";
    assert t[p - 1] == block[|block| - |s| - 1];
  }

  lemma OnePairIffParts(m: Markers, pre: string, block: string, post: string)
    requires Proper(m) && Bracketed(block) && |m.begin| + |m.end| <= |block|
    ensures OnePair(m, pre + block + post, |pre|, |pre| + |block|) <==>
              NoMarkers(m, pre) && OnePair(m, block, 0, |block|) && NoMarkers(m, post)
  {
    var last: nat := |block| - |m.end|;
    assert Sole(pre + block + post, m.begin, |pre|) <==> Nowhere(pre, m.begin) && Sole(block, m.begin, 0) && Nowhere(post, m.begin)
    by { SoleBetween(pre, block, post, m.begin, 0); }
    assert Sole(pre + block + post, m.end, |pre| + last) <==> Nowhere(pre, m.end) && Sole(block, m.end, last) && Nowhere(post, m.end)
    by { SoleBetween(pre, block, post, m.end, last); }
  }

  predicate OpenEnd(pre: string) {
    pre == "" || pre[|pre| - 1] == '\n'
  }

  predicate OpenStart(post: string) {
    post == "" || post[0] == '\n' || (|post| >= 2 && post[0] == '\r' && post[1] == '\n')
  }

  lemma OwnLinesIffParts(m: Markers, pre: string, block: string, post: string)
    requires Proper(m) && |m.begin| + |m.end| <= |block|
    ensures OwnLines(m, pre + block + post, |pre|, |pre| + |block|) <==>
              OpenEnd(pre) && OwnLines(m, block, 0, |block|) && OpenStart(post)
  {
    StandaloneBegin(pre, block, post, m.begin);
    StandaloneEnd(pre, block, post, m.end);
  }

  /** A text with a valid region is exactly a block between texts that admit one. */
  lemma RegionIffParts(m: Markers, pre: string, block: string, post: string)
    requires Proper(m) && Bracketed(block) && |m.begin| + |m.end| <= |block|
    ensures ValidRegion(m, pre + block + post, |pre|, |pre| + |block|) <==>
              Before(m, pre) && BlockOk(m, block) && After(m, post)
  {
    OnePairIffParts(m, pre, block, post);
    OwnLinesIffParts(m, pre, block, post);
  }

  /** A valid region cuts the text into such parts. */
  lemma PartsOfRegion(m: Markers, t: string, start: nat, end: nat)
    requires Proper(m) && ValidRegion(m, t, start, end)
    ensures Before(m, t[..start]) && BlockOk(m, t[start..end]) && After(m, t[end..])
    ensures t == t[..start] + t[start..end] + t[end..]
  {
    var pre, block, post := t[..start], t[start..end], t[end..];
    assert t == pre + block + post;
    RegionBracketed(m, t, start, end);
    RegionIffParts(m, pre, block, post);
  }

  lemma RegionBracketed(m: Markers, t: string, start: nat, end: nat)
    requires Proper(m) && ValidRegion(m, t, start, end)
    ensures Bracketed(t[start..end])
  {
    OccursAt(t, m.begin, start, 0);
    OccursAt(t, m.end, end - |m.end|, |m.end| - 1);
  }

  // ---- newlines ----

  predicate HasCrLf(t: string) {
    exists i | 0 <= i < |t| - 1 :: t[i] == '\r' && t[i + 1] == '\n'
  }

  /** `newlineFor` */
  function NewlineFor(t: string): string {
    if HasCrLf(t) then "\r\n" else "\n"
  }

  /** replaceAll('\r\n', '\n') */
  function WithoutCrLf(s: string): string {
    if s == "" then ""
    else if |s| >= 2 && s[0] == '\r' && s[1] == '\n' then "\n" + WithoutCrLf(s[2..])
    else [s[0]] + WithoutCrLf(s[1..])
  }

  /** replaceAll('\n', newline) */
  function WithNewline(s: string, newline: string): string {
    if s == "" then ""
    else (if s[0] == '\n' then newline else [s[0]]) + WithNewline(s[1..], newline)
  }

  function NormalizeBlock(block: string, newline: string): string {
    WithNewline(WithoutCrLf(block), newline)
  }

  lemma {:induction false} CrFreeUnchanged(s: string)
    requires '\r' !in s
    ensures WithoutCrLf(s) == s
  {
    if s != "" {
      assert s[0] in s;
      CrFreeUnchanged(s[1..]);
    }
  }

  lemma {:induction false} PlainNewline(s: string)
    ensures WithNewline(s, "\n") == s
  {
    if s != "" {
      PlainNewline(s[1..]);
      assert s == [s[0]] + s[1..];
    }
  }

  lemma {:induction false} WithNewlineAppend(a: string, b: string, newline: string)
    ensures WithNewline(a + b, newline) == WithNewline(a, newline) + WithNewline(b, newline)
  {
    if a == "" {
      assert a + b == b;
    } else {
      assert (a + b)[1..] == a[1..] + b;
      WithNewlineAppend(a[1..], b, newline);
    }
  }

  lemma {:induction false} WithNewlineNone(s: string, newline: string)
    requires '\n' !in s
    ensures WithNewline(s, newline) == s
  {
    if s != "" {
      assert s[0] in s;
      WithNewlineNone(s[1..], newline);
    }
  }

  predicate IsNewline(newline: string) {
    newline == "\n" || newline == "\r\n"
  }

  /** A line-free text that begins the rewritten text begins the original. */
  lemma {:induction false} PrefixOfRewritten(x: string, newline: string, s: string)
    requires IsNewline(newline) && s <= WithNewline(x, newline) && forall i | 0 <= i < |s| :: s[i] != '\n' && s[i] != '\r'
    ensures s <= x && Occurs(x, s, 0)
    decreases |s|
  {
    if s != "" {
      var w := WithNewline(x, newline);
      assert x != "" && w[0] == s[0] && x[0] != '\n';
      assert w == [x[0]] + WithNewline(x[1..], newline);
      assert s[1..] <= WithNewline(x[1..], newline) by {
        assert w[..|s|] == s && w[1..] == WithNewline(x[1..], newline);
        assert w[1..][..|s| - 1] == s[1..];
      }
      PrefixOfRewritten(x[1..], newline, s[1..]);
      assert s == [s[0]] + s[1..] && x == [x[0]] + x[1..];
    }
  }

  /** Rewriting line ends creates no marker. */
  lemma {:induction false} NowhereRewritten(x: string, newline: string, s: string)
    requires Comment(s) && IsNewline(newline) && Nowhere(x, s)
    ensures Nowhere(WithNewline(x, newline), s)
    decreases |x|
  {
    if x != "" {
      var rest := x[1..];
      assert x == [x[0]] + rest;
      forall q: nat ensures !Occurs(rest, s, q) { OccursRight([x[0]], rest, s, q); }
      NowhereRewritten(rest, newline, s);
      var w := WithNewline(rest, newline);
      if x[0] == '\n' {
        NoBracketNoComment(newline, s);
        NowhereSplit(newline, w, s);
      } else {
        forall q: nat ensures !Occurs([x[0]] + w, s, q) {
          if Occurs([x[0]] + w, s, q) {
            if q > 0 {
              OccursRight([x[0]], w, s, q - 1);
            } else {
              CommentChars(s);
              PrefixOfRewritten(x, newline, s);
            }
          }
        }
      }
    } else {
      forall q: nat ensures !Occurs("", s, q) {
      }
    }
  }

  // ---- blocks ----

  predicate StartsLine(x: string) {
    x != "" && (x[0] == '\n' || (|x| >= 2 && x[0] == '\r' && x[1] == '\n'))
  }

  predicate EndsLine(x: string) {
    x != "" && x[|x| - 1] == '\n'
  }

  function Wrapped(m: Markers, x: string): string {
    m.begin + x + m.end
  }

  ghost predicate Inner(m: Markers, x: string) {
    NoMarkers(m, x) && StartsLine(x) && EndsLine(x)
  }

  lemma SelfSole(s: string)
    requires Comment(s)
    ensures Sole(s, s, 0)
  {
    assert s[0..|s|] == s;
  }

  lemma OtherNowhere(a: string, b: string)
    requires Comment(a) && Comment(b) && a != b
    ensures Nowhere(a, b)
  {
    CommentChars(a);
    forall q: nat ensures !Occurs(a, b, q) {
      if Occurs(a, b, q) {
        OccursAt(a, b, q, 0);
        OccursAt(a, b, q, |b| - 1);
      }
    }
  }

  lemma WrappedIsBlock(m: Markers, x: string)
    requires Proper(m) && Inner(m, x)
    ensures BlockOk(m, Wrapped(m, x))
  {
    WrappedPair(m, x);
    var t := Wrapped(m, x);
    assert t[|m.begin|..] == x + m.end;
    assert t[|t|..] == "" && t[|t| - |m.end| - 1] == x[|x| - 1];
  }

  lemma WrappedPair(m: Markers, x: string)
    requires Proper(m) && Inner(m, x)
    ensures OnePair(m, Wrapped(m, x), 0, |Wrapped(m, x)|)
  {
    WrappedBegin(m, x);
    WrappedEnd(m, x);
  }

  lemma WrappedBegin(m: Markers, x: string)
    requires Proper(m) && Inner(m, x)
    ensures Sole(Wrapped(m, x), m.begin, 0)
  {
    assert Wrapped(m, x) == m.begin + (x + m.end);
    SelfSole(m.begin);
    OtherNowhere(m.end, m.begin);
    NowhereSplit(x, m.end, m.begin);
    SoleSplit(m.begin, x + m.end, m.begin, 0);
  }

  lemma WrappedEnd(m: Markers, x: string)
    requires Proper(m) && Inner(m, x)
    ensures Sole(Wrapped(m, x), m.end, |m.begin| + |x|)
  {
    assert Wrapped(m, x) == m.begin + (x + m.end);
    SelfSole(m.end);
    OtherNowhere(m.begin, m.end);
    SoleSplit(x, m.end, m.end, 0);
    SoleSplit(m.begin, x + m.end, m.end, |x|);
  }

  /** Every block is its markers around an inner text. */
  lemma BlockIsWrapped(m: Markers, block: string) returns (x: string)
    requires Proper(m) && BlockOk(m, block)
    ensures block == Wrapped(m, x) && Inner(m, x)
  {
    var p: nat := |block| - |m.end|;
    x := block[|m.begin|..p];
    assert block[0..|m.begin|] == m.begin && block[p..p + |m.end|] == m.end;
    assert block == m.begin + x + m.end;
    InnerNowhere(m, block, x);
    InnerLines(m, block, x);
  }

  lemma InnerLines(m: Markers, block: string, x: string)
    requires Proper(m) && block == Wrapped(m, x) && OwnLines(m, block, 0, |block|)
    ensures StartsLine(x) && EndsLine(x)
  {
    assert block[|m.begin|..] == x + m.end;
    assert block[|block| - |m.end| - 1] == (m.begin + x)[|m.begin + x| - 1];
  }

  lemma InnerNowhere(m: Markers, block: string, x: string)
    requires Proper(m) && block == Wrapped(m, x) && OnePair(m, block, 0, |block|)
    ensures NoMarkers(m, x)
  {
    assert block == m.begin + (x + m.end);
    forall q: nat ensures !Occurs(x, m.begin, q) && !Occurs(x, m.end, q) {
      if Occurs(x, m.begin, q) {
        OccursLeft(x, m.end, m.begin, q);
        OccursRight(m.begin, x + m.end, m.begin, q);
      }
      if Occurs(x, m.end, q) {
        OccursLeft(x, m.end, m.end, q);
        OccursRight(m.begin, x + m.end, m.end, q);
      }
    }
  }

  lemma {:induction false} RewrittenEndsLine(x: string, newline: string)
    requires IsNewline(newline) && EndsLine(x)
    ensures EndsLine(WithNewline(x, newline))
  {
    if |x| > 1 {
      RewrittenEndsLine(x[1..], newline);
    } else {
      assert x[1..] == "";
    }
  }

  /** Rewriting the line ends of a CR-free block gives a block. */
  lemma NormalizedBlockOk(m: Markers, block: string, newline: string) returns (x: string)
    requires Proper(m) && BlockOk(m, block) && '\r' !in block && IsNewline(newline)
    ensures block == Wrapped(m, x) && Inner(m, x)
    ensures x[0] == '\n' && NormalizeBlock(block, newline) == Wrapped(m, WithNewline(x, newline))
    ensures BlockOk(m, NormalizeBlock(block, newline))
  {
    x := BlockIsWrapped(m, block);
    CrFreeUnchanged(block);
    CommentChars(m.begin);
    CommentChars(m.end);
    WithNewlineAppend(m.begin + x, m.end, newline);
    WithNewlineAppend(m.begin, x, newline);
    WithNewlineNone(m.begin, newline);
    WithNewlineNone(m.end, newline);
    assert x[0] == '\n' by { assert x[0] == block[|m.begin|]; }
    NowhereRewritten(x, newline, m.begin);
    NowhereRewritten(x, newline, m.end);
    RewrittenEndsLine(x, newline);
    assert StartsLine(WithNewline(x, newline));
    WrappedIsBlock(m, WithNewline(x, newline));
  }

  // ---- upsert, remove, rebase ----

  datatype Action = Created | Updated | Unchanged

  datatype Edit = Edit(content: string, action: Action, wasBalanced: bool)

  function Separator(existing: string): string
    requires existing != ""
  {
    var nl := NewlineFor(existing);
    if existing[|existing| - 1] == '\n' || existing[|existing| - 1] == '\r' then nl + nl else nl + nl + nl
  }

  /** `upsertManagedBlock`; None stands for the throw on malformed markers. */
  function Upsert(m: Markers, existing: string, block: string): Option<Edit>
    requires Proper(m)
  {
    UpsertAt(ValidateMarkers(m, existing), existing, NormalizeBlock(block, NewlineFor(existing)))
  }

  function UpsertAt(v: Verdict, existing: string, normalized: string): Option<Edit>
    requires Cuts(v, existing)
  {
    match v
    case Malformed => None
    case Absent =>
      if existing == "" then Some(Edit(normalized, Created, false))
      else Some(Edit(existing + Separator(existing) + normalized, Created, false))
    case Region(start, end) =>
      if existing[start..end] == normalized then Some(Edit(existing, Unchanged, true))
      else Some(Edit(existing[..start] + normalized + existing[end..], Updated, true))
  }

  datatype Removal = NotPresent(content: string) | Kept(content: string) | Deleted

  /** `removeManagedBlock` */
  function Remove(m: Markers, existing: string): Option<Removal>
    requires Proper(m)
  {
    match ValidateMarkers(m, existing)
    case Malformed => None
    case Absent => Some(NotPresent(existing))
    case Region(start, end) =>
      var content := existing[..start] + existing[end..];
      Some(if content == "" then Deleted else Kept(content))
  }

  /** What the user owns before and after the region. */
  datatype Outside = Outside(pre: string, post: string)

  /** What stands outside the region; a text without one is all before. */
  function OutsideOf(m: Markers, t: string): Outside
    requires Proper(m)
  {
    var v := ValidateMarkers(m, t);
    if v.Region? then Outside(t[..v.start], t[v.end..]) else Outside(t, "")
  }

  function RegionText(m: Markers, t: string): string
    requires Proper(m)
  {
    TextAt(ValidateMarkers(m, t), t)
  }

  function TextAt(v: Verdict, t: string): string
    requires Cuts(v, t)
  {
    if v.Region? then t[v.start..v.end] else ""
  }

  /** What an upsert leaves before the region: appending adds a separator. */
  function Appended(existing: string): string {
    if existing == "" then "" else existing + Separator(existing)
  }

  function KeptOutside(m: Markers, existing: string): Outside
    requires Proper(m)
  {
    KeptAt(ValidateMarkers(m, existing), existing)
  }

  function KeptAt(v: Verdict, existing: string): Outside
    requires Cuts(v, existing)
  {
    if v.Region? then Outside(existing[..v.start], existing[v.end..]) else Outside(Appended(existing), "")
  }

  lemma AppendedIsBefore(m: Markers, existing: string)
    requires Proper(m) && NoMarkers(m, existing)
    ensures Before(m, Appended(existing))
  {
    if existing != "" {
      var sep := Separator(existing);
      NoBracketNoComment(sep, m.begin);
      NoBracketNoComment(sep, m.end);
      NowhereSplit(existing, sep, m.begin);
      NowhereSplit(existing, sep, m.end);
    }
  }

  /** The parts an upsert puts the block between. */
  lemma KeptParts(m: Markers, existing: string)
    requires Proper(m) && ValidateMarkers(m, existing) != Malformed
    ensures var o := KeptOutside(m, existing); Before(m, o.pre) && After(m, o.post)
  {
    match ValidateMarkers(m, existing)
    case Absent =>
      AbsentIsExact(m, existing);
      AppendedIsBefore(m, existing);
    case Region(start, end) =>
      RegionIsValid(m, existing, start, end);
      PartsOfRegion(m, existing, start, end);
  }

  lemma RegionFromParts(m: Markers, pre: string, block: string, post: string)
    requires Proper(m) && Before(m, pre) && BlockOk(m, block) && After(m, post)
    ensures ValidRegion(m, pre + block + post, |pre|, |pre| + |block|)
  {
    BlockEnds(m, block);
    RegionIffParts(m, pre, block, post);
  }

  predicate Unfolded(n: nat, pre: string, block: string, post: string) {
    true
  }

  /** `ValidRegion` of the joined parts, spelled out only where `ReadJoined` asks for it. */
  ghost predicate Joined(m: Markers, pre: string, block: string, post: string) {
    forall n: nat {:trigger Unfolded(n, pre, block, post)} :: Unfolded(n, pre, block, post) ==>
      ValidRegion(m, pre + block + post, |pre|, |pre| + |block|)
  }

  lemma JoinParts(m: Markers, pre: string, block: string, post: string)
    requires Proper(m) && Before(m, pre) && BlockOk(m, block) && After(m, post)
    ensures Joined(m, pre, block, post)
  {
    RegionFromParts(m, pre, block, post);
  }

  lemma ReadJoined(m: Markers, pre: string, block: string, post: string)
    requires Proper(m) && Joined(m, pre, block, post)
    ensures ValidateMarkers(m, pre + block + post) == Region(|pre|, |pre| + |block|)
  {
    assert Unfolded(0, pre, block, post);
    ValidIsRegion(m, pre + block + post, |pre|, |pre| + |block|);
  }

  /** Putting a block between such parts makes exactly that region. */
  lemma PlacedBlock(m: Markers, pre: string, block: string, post: string)
    requires Proper(m) && Before(m, pre) && BlockOk(m, block) && After(m, post)
    ensures var t := pre + block + post;
            ValidateMarkers(m, t).Region? && RegionText(m, t) == block && OutsideOf(m, t) == Outside(pre, post)
  {
    JoinParts(m, pre, block, post);
    ReadJoined(m, pre, block, post);
    Slices(pre, block, post);
  }

  lemma Slices(pre: string, block: string, post: string)
    ensures var t := pre + block + post;
            t[..|pre|] == pre && t[|pre|..|pre| + |block|] == block && t[|pre| + |block|..] == post
  {
  }

  /**
    Upserting a well-formed CR-free block into any text without malformed markers gives exactly
    one valid region, equal to the normalised block, and leaves all text outside it as it was,
    with a separator added when the block is appended.
   */
  lemma UpsertLaw(m: Markers, existing: string, block: string)
    requires Proper(m) && BlockOk(m, block) && '\r' !in block && ValidateMarkers(m, existing) != Malformed
    ensures var r := Upsert(m, existing, block);
            var normalized := NormalizeBlock(block, NewlineFor(existing));
            && r.Some? && ValidateMarkers(m, r.value.content).Region?
            && RegionText(m, r.value.content) == normalized && OutsideOf(m, r.value.content) == KeptOutside(m, existing)
            && r.value.content == KeptOutside(m, existing).pre + normalized + KeptOutside(m, existing).post
            && (r.value.wasBalanced <==> ValidateMarkers(m, existing).Region?)
            && r.value.action == (if !r.value.wasBalanced then Created
                                  else if RegionText(m, existing) == normalized then Unchanged else Updated)
  {
    var nl := NewlineFor(existing);
    var normalized := NormalizeBlock(block, nl);
    var x := NormalizedBlockOk(m, block, nl);
    KeptParts(m, existing);
    var o := KeptOutside(m, existing);
    PlacedBlock(m, o.pre, normalized, o.post);
    BlockEnds(m, normalized);
    UpsertContent(ValidateMarkers(m, existing), existing, normalized);
  }

  lemma UpsertContent(v: Verdict, existing: string, normalized: string)
    requires Cuts(v, existing) && v != Malformed && normalized != ""
    ensures var r, o := UpsertAt(v, existing, normalized), KeptAt(v, existing);
            && r.Some? && r.value.content == o.pre + normalized + o.post && (r.value.wasBalanced <==> v.Region?)
            && r.value.action == (if !v.Region? then Created else if TextAt(v, existing) == normalized then Unchanged else Updated)
  {
    if v.Region? {
      assert existing == existing[..v.start] + existing[v.start..v.end] + existing[v.end..];
    }
  }

  /** A block with CRLF line ends is treated as the same block with LF ones. */
  lemma CrLfBlockIsSame(m: Markers, existing: string, block: string)
    requires Proper(m) && '\r' !in WithoutCrLf(block)
    ensures Upsert(m, existing, block) == Upsert(m, existing, WithoutCrLf(block))
  {
    CrFreeUnchanged(WithoutCrLf(block));
  }

  /** Rewriting LF to CRLF and back gives the text again. */
  lemma {:induction false} CrLfRoundTrip(s: string)
    requires '\r' !in s
    ensures WithoutCrLf(WithNewline(s, "\r\n")) == s && '\r' !in WithoutCrLf(WithNewline(s, "\r\n"))
  {
    if s != "" {
      assert s[0] in s && forall c <- s[1..] :: c in s;
      CrLfRoundTrip(s[1..]);
      var rest := WithNewline(s[1..], "\r\n");
      assert s == [s[0]] + s[1..];
      if s[0] == '\n' {
        assert ("\r\n" + rest)[2..] == rest;
      } else {
        assert ([s[0]] + rest)[1..] == rest;
      }
    }
  }

  /**
    Where an appended block goes: behind two line ends after a text that ends in a line break, behind
    three after any other, so that two empty lines stand between a whole last line and the block.
   */
  lemma AppendedBehindBlankLines(existing: string)
    requires existing != ""
    ensures var nl, last := NewlineFor(existing), existing[|existing| - 1];
            && (last == '\n' || last == '\r' ==> Appended(existing) == existing + nl + nl)
            && (last != '\n' && last != '\r' ==> Appended(existing) == existing + nl + nl + nl)
            && (forall body :: existing == body + nl ==> Appended(existing) == body + nl + nl + nl)
  {
    var nl := NewlineFor(existing);
    forall body | existing == body + nl ensures Appended(existing) == body + nl + nl + nl {
      assert existing[|existing| - 1] == nl[|nl| - 1];
    }
  }

  /** Without a region nothing is removed, and malformed markers are refused. */
  lemma RemoveWithoutRegion(m: Markers, t: string)
    requires Proper(m) && !ValidateMarkers(m, t).Region?
    ensures Remove(m, t) == if NoMarkers(m, t) then Some(NotPresent(t)) else None
  {
    AbsentIsExact(m, t);
  }

  /** Removing gives back exactly the text outside, and leaves no marker. */
  lemma RemoveLaw(m: Markers, t: string)
    requires Proper(m) && ValidateMarkers(m, t).Region?
    ensures var o := OutsideOf(m, t);
            && Remove(m, t) == Some(if o.pre + o.post == "" then Deleted else Kept(o.pre + o.post))
            && ValidateMarkers(m, o.pre + o.post) == Absent
  {
    var v := ValidateMarkers(m, t);
    RegionIsValid(m, t, v.start, v.end);
    PartsOfRegion(m, t, v.start, v.end);
    var o := OutsideOf(m, t);
    NowhereSplit(o.pre, o.post, m.begin);
    NowhereSplit(o.pre, o.post, m.end);
    AbsentIsExact(m, o.pre + o.post);
  }

  // ---- idempotence ----

  lemma CrLfSplit(a: string, b: string)
    ensures HasCrLf(a + b) <==>
              HasCrLf(a) || HasCrLf(b) || (a != "" && b != "" && a[|a| - 1] == '\r' && b[0] == '\n')
  {
    var t := a + b;
    if i :| 0 <= i < |a| - 1 && a[i] == '\r' && a[i + 1] == '\n' {
      assert t[i] == '\r' && t[i + 1] == '\n';
    }
    if i :| 0 <= i < |b| - 1 && b[i] == '\r' && b[i + 1] == '\n' {
      assert t[|a| + i] == '\r' && t[|a| + i + 1] == '\n';
    }
    if a != "" && b != "" && a[|a| - 1] == '\r' && b[0] == '\n' {
      assert t[|a| - 1] == '\r' && t[|a| - 1 + 1] == '\n';
    }
    if i :| 0 <= i < |t| - 1 && t[i] == '\r' && t[i + 1] == '\n' {
      if i + 1 < |a| {
        assert a[i] == '\r' && a[i + 1] == '\n';
      } else if i >= |a| {
        assert b[i - |a|] == '\r' && b[i - |a| + 1] == '\n';
      }
    }
  }

  lemma {:induction false} RewrittenLonger(s: string)
    ensures |WithNewline(s, "\r\n")| >= |s|
    ensures '\n' in s ==> |WithNewline(s, "\r\n")| > |s|
  {
    if s != "" {
      RewrittenLonger(s[1..]);
      assert s == [s[0]] + s[1..];
    }
  }

  /** The one way an append changes the line-end convention of a text. */
  predicate EndsInBareCr(m: Markers, t: string)
    requires Proper(m)
  {
    ValidateMarkers(m, t) == Absent && t != "" && t[|t| - 1] == '\r' && !HasCrLf(t)
  }

  lemma AppendedCrLf(existing: string)
    requires !HasCrLf(existing)
    ensures HasCrLf(Appended(existing)) <==> existing != "" && existing[|existing| - 1] == '\r'
  {
    if existing != "" {
      var sep := Separator(existing);
      assert sep == "\n\n" || sep == "\n\n\n";
      assert !HasCrLf(sep);
      CrLfSplit(existing, sep);
    }
  }

  /** Whether the upserted text uses CRLF. */
  lemma UpsertedCrLf(m: Markers, existing: string, block: string)
    requires Proper(m) && BlockOk(m, block) && '\r' !in block && ValidateMarkers(m, existing) != Malformed
    ensures var o := KeptOutside(m, existing);
            var c := o.pre + NormalizeBlock(block, NewlineFor(existing)) + o.post;
            HasCrLf(c) <==> HasCrLf(existing) || EndsInBareCr(m, existing)
  {
    var nl, o := NewlineFor(existing), KeptOutside(m, existing);
    var n := NormalizeBlock(block, nl);
    var x := NormalizedBlockOk(m, block, nl);
    BlockEnds(m, n);
    CrLfSplit(o.pre, n);
    CrLfSplit(o.pre + n, o.post);
    if HasCrLf(existing) {
      InnerCrLf(m, x);
    } else {
      PlainNewline(block);
      CrFreeUnchanged(block);
      assert n == block && !HasCrLf(n);
      OutsideCrLf(m, existing);
    }
  }

  lemma InnerCrLf(m: Markers, x: string)
    requires Inner(m, x) && x[0] == '\n'
    ensures HasCrLf(Wrapped(m, WithNewline(x, "\r\n")))
  {
    var w := WithNewline(x, "\r\n");
    assert w[0] == '\r' && w[0 + 1] == '\n';
    CrLfSplit(m.begin, w);
    CrLfSplit(m.begin + w, m.end);
  }

  lemma OutsideCrLf(m: Markers, existing: string)
    requires Proper(m) && ValidateMarkers(m, existing) != Malformed && !HasCrLf(existing)
    ensures var o := KeptOutside(m, existing);
            !HasCrLf(o.post) && (HasCrLf(o.pre) <==> EndsInBareCr(m, existing))
  {
    var v := ValidateMarkers(m, existing);
    if v.Region? {
      var pre, inside, post := existing[..v.start], existing[v.start..v.end], existing[v.end..];
      assert existing == pre + inside + post;
      CrLfSplit(pre + inside, post);
      CrLfSplit(pre, inside);
    } else {
      AppendedCrLf(existing);
    }
  }

  /**
    Upserting the same block again changes nothing, except exactly when the block was appended to
    a text that ends in a bare CR and has no CRLF: the separator then makes the first CRLF.
   */
  lemma UpsertIdempotentIff(m: Markers, existing: string, block: string)
    requires Proper(m) && BlockOk(m, block) && '\r' !in block && ValidateMarkers(m, existing) != Malformed
    ensures var first := Upsert(m, existing, block);
            && first.Some?
            && (Upsert(m, first.value.content, block) == Some(Edit(first.value.content, Unchanged, true)) <==>
                !EndsInBareCr(m, existing))
  {
    UpsertLaw(m, existing, block);
    UpsertedCrLf(m, existing, block);
    var c := Upsert(m, existing, block).value.content;
    UpsertLaw(m, c, block);
    NewlinesTell(m, block);
    UnchangedIsSame(ValidateMarkers(m, c), c, NormalizeBlock(block, NewlineFor(c)));
  }

  /** For example after a text of one CR. */
  lemma NotIdempotentAfterBareCr(block: string)
    requires BlockOk(KIOKUKO, block) && '\r' !in block
    ensures Proper(KIOKUKO)
    ensures var first := Upsert(KIOKUKO, "\r", block);
            first.Some? && Upsert(KIOKUKO, first.value.content, block) != Some(Edit(first.value.content, Unchanged, true))
  {
    KiokukoIsProper();
    NoBracketNoComment("\r", KIOKUKO.begin);
    NoBracketNoComment("\r", KIOKUKO.end);
    AbsentIsExact(KIOKUKO, "\r");
    UpsertIdempotentIff(KIOKUKO, "\r", block);
  }

  lemma UnchangedIsSame(v: Verdict, t: string, normalized: string)
    requires Cuts(v, t) && v.Region?
    ensures UpsertAt(v, t, normalized).value.action == Unchanged <==>
              UpsertAt(v, t, normalized) == Some(Edit(t, Unchanged, true))
  {
  }

  lemma NewlinesTell(m: Markers, block: string)
    requires Proper(m) && BlockOk(m, block) && '\r' !in block
    ensures NormalizeBlock(block, "\n") != NormalizeBlock(block, "\r\n")
  {
    CrFreeUnchanged(block);
    PlainNewline(block);
    var x := BlockIsWrapped(m, block);
    assert block[|m.begin| + |x| - 1] == x[|x| - 1] == '\n';
    RewrittenLonger(block);
  }

  // ---- rebase ----

  datatype Rebase = Rebased(edit: Edit) | Conflict | Threw

  /** `rebaseManagedBlock`, comparing regions by an injective digest. */
  function RebaseBlock(m: Markers, digest: string -> string, base: string, latest: string, block: string): Rebase
    requires Proper(m)
  {
    var desired := Upsert(m, latest, block);
    if ValidateMarkers(m, base) == Malformed || desired.None? || ValidateMarkers(m, desired.value.content) == Malformed then Threw
    else
      var wanted := digest(RegionText(m, desired.value.content));
      var current := digest(RegionText(m, latest));
      if current == wanted then Rebased(desired.value.(content := latest, action := Unchanged))
      else if current != digest(RegionText(m, base)) then Conflict
      else Rebased(desired.value)
  }

  ghost predicate InjectiveDigest(digest: string -> string) {
    forall a, b :: digest(a) == digest(b) ==> a == b
  }

  /**
    A rebase throws only on malformed markers; it conflicts exactly when the latest region is
    neither the one planned from nor the one wanted; otherwise its text is the upsert of the
    latest text, so every edit outside the region is kept.
   */
  lemma RebaseLaw(m: Markers, digest: string -> string, base: string, latest: string, block: string)
    requires Proper(m) && BlockOk(m, block) && '\r' !in block && InjectiveDigest(digest)
    ensures var r := RebaseBlock(m, digest, base, latest, block);
            && (r.Threw? <==> ValidateMarkers(m, base) == Malformed || ValidateMarkers(m, latest) == Malformed)
            && (r.Conflict? <==>
                && ValidateMarkers(m, base) != Malformed && ValidateMarkers(m, latest) != Malformed
                && RegionText(m, latest) != NormalizeBlock(block, NewlineFor(latest))
                && RegionText(m, latest) != RegionText(m, base))
            && (r.Rebased? ==>
                && r.edit == Upsert(m, latest, block).value
                && OutsideOf(m, r.edit.content) == KeptOutside(m, latest)
                && RegionText(m, r.edit.content) == NormalizeBlock(block, NewlineFor(latest)))
  {
    if ValidateMarkers(m, latest) != Malformed {
      UpsertLaw(m, latest, block);
      UnchangedUpsert(m, latest, block);
    }
    RebaseCases(m, digest, base, latest, block);
  }

  /** The three ways a rebase can go, over what the upsert of the latest text yields. */
  lemma RebaseCases(m: Markers, digest: string -> string, base: string, latest: string, block: string)
    requires Proper(m) && InjectiveDigest(digest)
    ensures var r, desired := RebaseBlock(m, digest, base, latest, block), Upsert(m, latest, block);
            if ValidateMarkers(m, base) == Malformed || desired.None? || ValidateMarkers(m, desired.value.content) == Malformed then r.Threw?
            else if RegionText(m, latest) == RegionText(m, desired.value.content)
            then r == Rebased(desired.value.(content := latest, action := Unchanged))
            else if RegionText(m, latest) != RegionText(m, base) then r.Conflict? else r == Rebased(desired.value)
  {
  }

  lemma UnchangedUpsert(m: Markers, t: string, block: string)
    requires Proper(m) && ValidateMarkers(m, t) != Malformed
    ensures var r := Upsert(m, t, block); r.Some? && (r.value.action == Unchanged ==> r.value.content == t)
  {
    UnchangedContent(ValidateMarkers(m, t), t, NormalizeBlock(block, NewlineFor(t)));
  }

  lemma UnchangedContent(v: Verdict, t: string, normalized: string)
    requires Cuts(v, t) && v != Malformed
    ensures var r := UpsertAt(v, t, normalized); r.Some? && (r.value.action == Unchanged ==> r.value.content == t)
  {
  }
}
