/**
  The download button's click handler (popup.js): collect the attachments,
  name them in order with one shared counter map, hand each to the browser
  and count successes and failures. The browser's answer for the i-th
  download is an oracle `ok(i)`.
 */
module BatchDownload {
  import opened Options
  import opened Store
  import opened Downloads
  import opened Filenames
  import FirstWins

  /** The paths of a whole batch and the counter map they leave. */
  datatype Plan = Plan(names: seq<string>, counts: map<string, nat>)

  /** One naming step: an attachment, its position and the counters so far
      give its path and the counters after it. */
  type Step = (DownloadEntry, nat, map<string, nat>) -> Built

  /** The counter key an attachment at a position is named under. */
  type KeyFn = (DownloadEntry, nat) -> string

  /** The step of the click handler: `buildDownloadFilename`. */
  function Naming(pathOf: DownloadEntry -> Option<string>): Step {
    (e: DownloadEntry, i: nat, c: map<string, nat>) => BuildFilename(e, i, pathOf(e), c)
  }

  function Keying(pathOf: DownloadEntry -> Option<string>): KeyFn {
    (e: DownloadEntry, i: nat) => NameKey(e, i, pathOf(e))
  }

  /** Naming the attachments in order, one shared counter map starting empty. */
  function Fold(atts: seq<DownloadEntry>, step: Step): (p: Plan)
    ensures |p.names| == |atts|
    decreases |atts|
  {
    if atts == [] then Plan([], map[])
    else
      var n := |atts| - 1;
      var prev := Fold(atts[..n], step);
      var b := step(atts[n], n, prev.counts);
      Plan(prev.names + [b.path], b.counts)
  }

  function PlanNames(atts: seq<DownloadEntry>, pathOf: DownloadEntry -> Option<string>): (p: Plan)
    ensures |p.names| == |atts|
  {
    Fold(atts, Naming(pathOf))
  }

  /** The counter keys of a batch, one per attachment, in order. */
  function Keys(atts: seq<DownloadEntry>, key: KeyFn): (ks: seq<string>)
    ensures |ks| == |atts|
    ensures forall i | 0 <= i < |atts| :: ks[i] == key(atts[i], i)
    decreases |atts|
  {
    if atts == [] then []
    else
      var n := |atts| - 1;
      var init := Keys(atts[..n], key);
      assert forall i | 0 <= i < n :: atts[..n][i] == atts[i];
      init + [key(atts[n], n)]
  }

  lemma KeysPrefix(atts: seq<DownloadEntry>, key: KeyFn, n: nat)
    requires n <= |atts|
    ensures Keys(atts[..n], key) == Keys(atts, key)[..n]
  {
    assert forall i | 0 <= i < n :: atts[..n][i] == atts[i];
  }

  /** How many times `key` occurs in `ks`. */
  function Count(ks: seq<string>, key: string): nat
    decreases |ks|
  {
    if ks == [] then 0
    else Count(ks[..|ks| - 1], key) + (if ks[|ks| - 1] == key then 1 else 0)
  }

  /** A step that raises exactly the counter of its attachment's key. */
  ghost predicate Tallies(step: Step, key: KeyFn) {
    forall e, i, c, k :: CountOf(step(e, i, c).counts, k) == CountOf(c, k) + (if k == key(e, i) then 1 else 0)
  }

  lemma NamingTallies(pathOf: DownloadEntry -> Option<string>)
    ensures Tallies(Naming(pathOf), Keying(pathOf))
  {
    forall e, i, c, k
      ensures CountOf(Naming(pathOf)(e, i, c).counts, k) == CountOf(c, k) + (if k == Keying(pathOf)(e, i) then 1 else 0)
    {
      var b := BuildFilename(e, i, pathOf(e), c);
      assert Naming(pathOf)(e, i, c) == b;
    }
  }

  /** After a batch, the counter of every key is the number of attachments
      that carried it. */
  lemma {:induction false} FoldCounts(atts: seq<DownloadEntry>, step: Step, key: KeyFn, k: string)
    requires Tallies(step, key)
    ensures CountOf(Fold(atts, step).counts, k) == Count(Keys(atts, key), k)
    decreases |atts|
  {
    if atts != [] {
      var n := |atts| - 1;
      FoldCounts(atts[..n], step, key, k);
      var ks := Keys(atts, key);
      assert ks[..n] == Keys(atts[..n], key);
    }
  }

  /** The i-th name of a batch is what the step gives with the counters the
      earlier attachments left. */
  lemma {:induction false} FoldName(atts: seq<DownloadEntry>, step: Step, i: nat)
    requires i < |atts|
    ensures Fold(atts, step).names[i] == step(atts[i], i, Fold(atts[..i], step).counts).path
    decreases |atts|
  {
    var n := |atts| - 1;
    if i < n {
      FoldName(atts[..n], step, i);
      assert atts[..n][..i] == atts[..i];
    }
  }

  /** The i-th attachment is saved under its two folder names and its file
      name numbered by how many earlier attachments of the batch share its
      key: the first keeps its name, the n-th carries `(n)`. */
  lemma PlanName(atts: seq<DownloadEntry>, pathOf: DownloadEntry -> Option<string>, i: nat)
    requires i < |atts|
    ensures var ks := Keys(atts, Keying(pathOf));
            SplitOn(PlanNames(atts, pathOf).names[i], '/')
              == [CoursePart(atts[i]), AssignmentPart(atts[i]),
                  Numbered(BaseName(atts[i], i, pathOf(atts[i])), Count(ks[..i], ks[i]))]
  {
    var step := Naming(pathOf);
    var counts := Fold(atts[..i], step).counts;
    var ks := Keys(atts, Keying(pathOf));
    FoldName(atts, step, i);
    NamingTallies(pathOf);
    FoldCounts(atts[..i], step, Keying(pathOf), ks[i]);
    KeysPrefix(atts, Keying(pathOf), i);
    assert step(atts[i], i, counts) == BuildFilename(atts[i], i, pathOf(atts[i]), counts);
    PathParts(atts[i], i, pathOf(atts[i]), counts);
  }

  /** How many of the first `n` downloads the browser accepted. */
  function Successes(ok: nat -> bool, n: nat): nat {
    if n == 0 then 0 else Successes(ok, n - 1) + (if ok(n - 1) then 1 else 0)
  }

  /** The loop of the click handler for any naming step: every attachment
      is named and tried exactly once, and each attempt counts as a success
      or a failure. */
  method NameAndTry(atts: seq<DownloadEntry>, step: Step, ok: nat -> bool)
    returns (succeeded: nat, failed: nat, names: seq<string>)
    ensures succeeded + failed == |atts|
    ensures succeeded == Successes(ok, |atts|)
    ensures names == Fold(atts, step).names
  {
    var counts: map<string, nat> := map[];
    succeeded, failed, names := 0, 0, [];
    var i := 0;
    while i < |atts|
      invariant 0 <= i <= |atts|
      invariant Fold(atts[..i], step) == Plan(names, counts)
      invariant succeeded + failed == i
      invariant succeeded == Successes(ok, i)
    {
      var b := step(atts[i], i, counts);
      assert atts[..i + 1][..i] == atts[..i];
      names := names + [b.path];
      counts := b.counts;
      if ok(i) {
        succeeded := succeeded + 1;
      } else {
        failed := failed + 1;
      }
      i := i + 1;
    }
    assert atts[..|atts|] == atts;
  }

  /** The loop of the click handler, naming with `buildDownloadFilename`. */
  method DownloadAll(atts: seq<DownloadEntry>, pathOf: DownloadEntry -> Option<string>, ok: nat -> bool)
    returns (succeeded: nat, failed: nat, names: seq<string>)
    ensures succeeded + failed == |atts|
    ensures succeeded == Successes(ok, |atts|)
    ensures names == PlanNames(atts, pathOf).names
  {
    succeeded, failed, names := NameAndTry(atts, Naming(pathOf), ok);
  }

  /** What a click on the download button ends with. */
  datatype ClickOutcome =
    | NoData
    | NothingToDownload
    | Finished(succeeded: nat, failed: nat, names: seq<string>)

  lemma KeepFirstEmpty(cands: seq<DownloadEntry>)
    ensures FirstWins.KeepFirst(cands, EntryUrl) == [] <==> cands == []
  {
    if cands != [] {
      assert EntryUrl(cands[0]) in FirstWins.KeySet(cands, EntryUrl);
    }
  }

  /** The click handler: nothing without data, nothing when the filter
      selects no attachment, and otherwise one attempt per collected
      attachment, each counted once. */
  method DownloadClick(data: Option<Snapshot>, filter: string, pathOf: DownloadEntry -> Option<string>, ok: nat -> bool)
    returns (o: ClickOutcome)
    ensures o.NoData? <==> data.None?
    ensures o.NothingToDownload? <==> data.Some? && Candidates(data.value.assignments, filter) == []
    ensures o.Finished? ==>
              var atts := FirstWins.KeepFirst(Candidates(data.value.assignments, filter), EntryUrl);
              && o.succeeded + o.failed == |atts| > 0
              && o.succeeded == Successes(ok, |atts|)
              && o.names == PlanNames(atts, pathOf).names
  {
    if data.None? {
      return NoData;
    }
    var atts := CollectAttachments(data, filter);
    KeepFirstEmpty(Candidates(data.value.assignments, filter));
    if |atts| == 0 {
      return NothingToDownload;
    }
    var s, f, names := DownloadAll(atts, pathOf, ok);
    o := Finished(s, f, names);
  }
}
