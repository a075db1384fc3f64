/**
  The attachment download planner of popup.js: which attachments a click on
  the download button fetches (`collectDownloadableAttachments`), the path
  each one is saved under (`buildDownloadFilename`), and the counting loop of
  the click handler. The browser's `new URL(...)` is replaced by the URL's
  pathname given as input (absent when the URL does not parse), and each
  `chrome.downloads.download` outcome is an oracle indexed by attempt.
 */
module Downloads {
  import opened Options
  import opened Text
  import opened Store
  import opened Sanitize
  import FirstWins

  /** One planned download: the assignment it belongs to and the attachment. */
  datatype DownloadEntry = DownloadEntry(course: string, assignmentTitle: string, dueDate: string, text: string, url: string)

  /** The course filter value that selects every course. */
  const AllCourses: string := "all"

  predicate Selected(filter: string, r: Record) {
    filter == AllCourses || r.course == filter
  }

  /** `item.attachments`, or nothing when the record holds no attachment list. */
  function AttachmentsOf(r: Record): seq<Attachment> {
    if r.payload.AssignmentDetail? then r.payload.attachments else []
  }

  function DueDateOf(r: Record): string {
    if r.payload.AssignmentDetail? then r.payload.dueDate else ""
  }

  function EntryUrl(e: DownloadEntry): string {
    e.url
  }

  function EntryOf(r: Record, a: Attachment): DownloadEntry {
    DownloadEntry(r.course, r.title, DueDateOf(r), a.text, a.url)
  }

  /** The entries a record's attachments give before deduplication: those
      with a non-empty url, in order. Built from the back, as a loop extends it. */
  function EntriesOf(r: Record, atts: seq<Attachment>): (es: seq<DownloadEntry>)
    ensures forall i | 0 <= i < |es| :: es[i].url != "" && es[i].course == r.course && es[i].assignmentTitle == r.title
    decreases |atts|
  {
    if atts == [] then []
    else
      var last := atts[|atts| - 1];
      var init := EntriesOf(r, atts[..|atts| - 1]);
      if last.url != "" then init + [EntryOf(r, last)] else init
  }

  /** All entries of the selected assignments, in assignment then attachment
      order, before deduplication. */
  function Candidates(assignments: seq<Record>, filter: string): (es: seq<DownloadEntry>)
    ensures forall i | 0 <= i < |es| :: es[i].url != "" && (filter == AllCourses || es[i].course == filter)
    decreases |assignments|
  {
    if assignments == [] then []
    else
      var last := assignments[|assignments| - 1];
      var init := Candidates(assignments[..|assignments| - 1], filter);
      if Selected(filter, last) then init + EntriesOf(last, AttachmentsOf(last)) else init
  }

  lemma EntriesSnoc(r: Record, atts: seq<Attachment>, j: int)
    requires 0 <= j < |atts|
    ensures EntriesOf(r, atts[..j + 1])
         == EntriesOf(r, atts[..j]) + (if atts[j].url != "" then [EntryOf(r, atts[j])] else [])
  {
    assert atts[..j + 1][..j] == atts[..j];
  }

  lemma CandidatesSnoc(assignments: seq<Record>, filter: string, i: int)
    requires 0 <= i < |assignments|
    ensures Candidates(assignments[..i + 1], filter)
         == Candidates(assignments[..i], filter)
            + (if Selected(filter, assignments[i]) then EntriesOf(assignments[i], AttachmentsOf(assignments[i])) else [])
  {
    assert assignments[..i + 1][..i] == assignments[..i];
  }

  /** One more candidate: the scan keeps it exactly when its url is new. */
  lemma ScanSnoc(done: seq<DownloadEntry>, e: DownloadEntry)
    ensures FirstWins.FirstsByPrefix(done + [e], EntryUrl)
         == FirstWins.FirstsByPrefix(done, EntryUrl) + (if e.url in FirstWins.KeySet(done, EntryUrl) then [] else [e])
    ensures FirstWins.KeySet(done + [e], EntryUrl) == FirstWins.KeySet(done, EntryUrl) + {e.url}
  {
    assert (done + [e])[..|done + [e]| - 1] == done;
    FirstWins.KeySetAppend(done, [e], EntryUrl);
  }

  /** The deduplicated candidates keep the candidates' properties. */
  lemma ScanKeeps(cands: seq<DownloadEntry>, filter: string)
    requires forall i | 0 <= i < |cands| :: cands[i].url != "" && (filter == AllCourses || cands[i].course == filter)
    ensures var r := FirstWins.KeepFirst(cands, EntryUrl);
            forall i | 0 <= i < |r| :: r[i].url != "" && (filter == AllCourses || r[i].course == filter)
  {
    var r := FirstWins.KeepFirst(cands, EntryUrl);
    FirstWins.KeepFirstAfterSubset(cands, EntryUrl, {});
    forall i | 0 <= i < |r| ensures r[i].url != "" && (filter == AllCourses || r[i].course == filter) {
      assert r[i] in cands;
      var j :| 0 <= j < |cands| && cands[j] == r[i];
    }
  }

  lemma ConcatAssoc(a: seq<DownloadEntry>, b: seq<DownloadEntry>, c: seq<DownloadEntry>)
    ensures a + (b + c) == (a + b) + c
  {
  }

  /** The inner loop over one assignment's attachments: each entry with a url
      is added to the scan, and kept when its url is new. */
  method ScanAttachments(item: Record, seen: set<string>, r: seq<DownloadEntry>, ghost done: seq<DownloadEntry>)
    returns (seen': set<string>, r': seq<DownloadEntry>)
    requires r == FirstWins.FirstsByPrefix(done, EntryUrl)
    requires seen == FirstWins.KeySet(done, EntryUrl)
    ensures r' == FirstWins.FirstsByPrefix(done + EntriesOf(item, AttachmentsOf(item)), EntryUrl)
    ensures seen' == FirstWins.KeySet(done + EntriesOf(item, AttachmentsOf(item)), EntryUrl)
  {
    var atts := AttachmentsOf(item);
    seen', r' := seen, r;
    ghost var cur := done;
    var j := 0;
    while j < |atts|
      invariant 0 <= j <= |atts|
      invariant cur == done + EntriesOf(item, atts[..j])
      invariant r' == FirstWins.FirstsByPrefix(cur, EntryUrl)
      invariant seen' == FirstWins.KeySet(cur, EntryUrl)
    {
      var a := atts[j];
      EntriesSnoc(item, atts, j);
      if a.url != "" {
        var e := EntryOf(item, a);
        ScanSnoc(cur, e);
        if a.url !in seen' {
          seen' := seen' + {a.url};
          r' := r' + [e];
        }
        ConcatAssoc(done, EntriesOf(item, atts[..j]), [e]);
        cur := cur + [e];
      }
      j := j + 1;
    }
    assert atts[..|atts|] == atts;
  }

  /** `collectDownloadableAttachments()`: with no data loaded, nothing;
      otherwise the selected assignments' attachments with a url, the first
      entry for each url only, in order. */
  method CollectAttachments(data: Option<Snapshot>, filter: string) returns (r: seq<DownloadEntry>)
    ensures data.None? ==> r == []
    ensures data.Some? ==> r == FirstWins.KeepFirst(Candidates(data.value.assignments, filter), EntryUrl)
    ensures FirstWins.DistinctKeys(r, EntryUrl)
    ensures forall i | 0 <= i < |r| :: r[i].url != "" && (filter == AllCourses || r[i].course == filter)
  {
    if data.None? {
      return [];
    }
    var assignments := data.value.assignments;
    var seen: set<string> := {};
    ghost var done: seq<DownloadEntry> := [];
    r := [];
    var i := 0;
    while i < |assignments|
      invariant 0 <= i <= |assignments|
      invariant done == Candidates(assignments[..i], filter)
      invariant r == FirstWins.FirstsByPrefix(done, EntryUrl)
      invariant seen == FirstWins.KeySet(done, EntryUrl)
    {
      var item := assignments[i];
      CandidatesSnoc(assignments, filter, i);
      if Selected(filter, item) {
        seen, r := ScanAttachments(item, seen, r, done);
        done := done + EntriesOf(item, AttachmentsOf(item));
      }
      i := i + 1;
    }
    assert assignments[..|assignments|] == assignments;
    FirstWins.KeepFirstIsFirstsByPrefix(done, EntryUrl);
    ScanKeeps(done, filter);
  }
}
