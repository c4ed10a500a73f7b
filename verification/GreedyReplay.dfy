/**
  Cutting a replayed delivery to its character budget, text by text
  (src/context/broker.ts:787-832).
 */
module GreedyReplay {
  import opened Options
  import opened Sequences

  datatype Entry = Entry(title: string, summary: Option<string>, body: string)

  datatype Content = Content(title: string, summary: Option<string>, bodyPreview: string,
                             characterCount: nat, truncated: bool)

  function OrEmpty(s: Option<string>): string {
    if s.Some? then s.value else ""
  }

  /** The texts of an entry in the order they are cut. */
  function EntryText(e: Entry): string {
    e.title + OrEmpty(e.summary) + e.body
  }

  function ContentText(c: Content): string {
    c.title + OrEmpty(c.summary) + c.bodyPreview
  }

  /** Everything stored, read in a row. */
  function StoredText(es: seq<Entry>): string {
    if es == [] then "" else StoredText(es[..|es| - 1]) + EntryText(es[|es| - 1])
  }

  /** Everything emitted, read in a row. */
  function EmittedText(cs: seq<Content>): string {
    if cs == [] then "" else EmittedText(cs[..|cs| - 1]) + ContentText(cs[|cs| - 1])
  }

  /** Cutting a text first and then what follows is cutting the whole. */
  lemma TakeAppend(a: string, b: string, budget: nat)
    ensures Take(a + b, budget) == Take(a, budget) + Take(b, budget - |Take(a, budget)|)
    ensures |Take(a, budget)| == Min(budget, |a|)
  {
  }

  lemma CutsInARow(a: string, b: string, c: string, budget: nat)
    ensures var x := Take(a, budget);
            var y := Take(b, budget - |x|);
            var z := Take(c, budget - |x| - |y|);
            && x + y + z == Take(a + b + c, budget) && |x| + |y| + |z| == Min(budget, |a| + |b| + |c|)
            && (|x| < |a| || |y| < |b| || |z| < |c| <==> |a| + |b| + |c| > budget)
  {
    TakeAppend(a, b, budget);
    TakeAppend(a + b, c, budget);
  }

  /** Every text is cut to a prefix of itself, and a missing summary stays missing. */
  predicate CutFrom(c: Content, e: Entry) {
    c.title <= e.title && c.bodyPreview <= e.body && (c.summary.Some? <==> e.summary.Some?)
    && (c.summary.Some? ==> c.summary.value <= e.summary.value)
  }

  /** One entry: the three cuts in a row. */
  method CutEntry(e: Entry, budget: nat) returns (c: Content, remaining: nat)
    ensures ContentText(c) == Take(EntryText(e), budget) && CutFrom(c, e)
    ensures c.characterCount == |ContentText(c)| && remaining == budget - c.characterCount
    ensures c.truncated <==> |EntryText(e)| > budget
  {
    var left: int := budget;
    var title := Take(e.title, left);
    left := left - |title|;
    var summary := if e.summary.None? then None else Some(Take(e.summary.value, left));
    left := left - |OrEmpty(summary)|;
    var body := Take(e.body, left);
    left := left - |body|;
    var count := |title| + |OrEmpty(summary)| + |body|;
    var truncated := |title| < |e.title| || (e.summary.Some? && |OrEmpty(summary)| < |e.summary.value|) || |body| < |e.body|;
    CutsInARow(e.title, OrEmpty(e.summary), e.body, budget);
    c := Content(title, summary, body, count, truncated);
    remaining := left;
  }

  predicate AllCut(items: seq<Content>, es: seq<Entry>) {
    |items| == |es| && forall i | 0 <= i < |es| :: CutFrom(items[i], es[i])
  }

  lemma AllCutStep(items: seq<Content>, es: seq<Entry>, i: nat, c: Content)
    requires i < |es| && AllCut(items, es[..i]) && CutFrom(c, es[i])
    ensures AllCut(items + [c], es[..i + 1])
  {
  }

  lemma CutStep(es: seq<Entry>, i: nat, items: seq<Content>, c: Content, budget: nat)
    requires i < |es| && EmittedText(items) == Take(StoredText(es[..i]), budget)
    requires ContentText(c) == Take(EntryText(es[i]), budget - |EmittedText(items)|)
    ensures EmittedText(items + [c]) == Take(StoredText(es[..i + 1]), budget)
    ensures StoredText(es[..i + 1]) == StoredText(es[..i]) + EntryText(es[i])
    ensures EmittedText(items + [c]) == EmittedText(items) + ContentText(c)
  {
    assert es[..i + 1][..i] == es[..i] && (items + [c])[..|items|] == items;
    TakeAppend(StoredText(es[..i]), EntryText(es[i]), budget);
  }

  /**
    The replay loop: what is emitted, all texts read in a row, is the first `budget` characters of
    what is stored; each text is a prefix of its own; nothing goes below zero; and the flag is
    raised exactly when something was cut off.
   */
  method StoredContext(es: seq<Entry>, budget: nat) returns (items: seq<Content>, total: nat, truncated: bool, remaining: nat)
    ensures EmittedText(items) == Take(StoredText(es), budget)
    ensures AllCut(items, es)
    ensures total == Min(budget, |StoredText(es)|) && remaining == budget - total
    ensures truncated <==> |StoredText(es)| > budget
  {
    items, total, truncated, remaining := [], 0, false, budget;
    var i := 0;
    while i < |es|
      invariant 0 <= i <= |es| && |items| == i
      invariant EmittedText(items) == Take(StoredText(es[..i]), budget)
      invariant AllCut(items, es[..i])
      invariant total == |EmittedText(items)| && remaining == budget - total
      invariant truncated <==> |StoredText(es[..i])| > budget
    {
      var c, left := CutEntry(es[i], remaining);
      CutStep(es, i, items, c, budget);
      AllCutStep(items, es, i, c);
      items := items + [c];
      total := total + c.characterCount;
      truncated := truncated || c.truncated;
      remaining := left;
      i := i + 1;
    }
    assert es[..i] == es;
  }
}
