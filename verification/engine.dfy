/**
  `runAggregation` (background.js) as a pure fold. The browser is an oracle
  given up front: for every discovered course, whether its item list appeared
  and which item summaries it listed; for every listed item, what opening its
  detail view produced. The run seeds the seen-key set and the course set from
  the stored snapshot, walks courses and items in order, appends the records
  of items it has not seen, dedupes each collection, and always sends the tab
  back to the page the run started from.
 */
module Engine {
  import opened Options
  import opened Store
  import opened PageReader
  import FirstWins

  datatype Course = Course(name: string, url: string)

  /** What clicking a listed item and waiting for its detail view produced:
      the link to click was not found (`clicked` false, nothing left the
      listing), the detail container never appeared, or the detail fields. */
  datatype DetailOutcome = ClickTargetMissing | DetailTimeout | DetailRead(payload: Payload)

  datatype ItemVisit = ItemVisit(summary: ItemSummary, detail: DetailOutcome)

  /** A course page either never shows its item container (or its listing
      cannot be read) or lists item summaries in page order. */
  datatype Listing = ListingTimeout | ListingRead(items: seq<ItemVisit>)

  datatype CourseVisit = CourseVisit(course: Course, listing: Listing)

  /** Reading `aggregatedData` from storage. */
  datatype StoreRead = Unreadable | Loaded(snapshot: Snapshot)

  /** What the run does to the tab: load a URL, or run the click script on a selector. */
  datatype Nav = Navigate(url: string) | Click(selector: string)

  datatype Failure = NoCourses | StoreUnreadable

  /** The status cell the run leaves behind: `idle` after a completed run, `error` after a fatal one. */
  datatype Status = Idle | Error(reason: Failure)

  /** The outcome of one run: the final status, the snapshot written (if any),
      and every tab interaction in order. */
  datatype RunResult = RunResult(status: Status, written: Option<Snapshot>, trace: seq<Nav>)

  /** The run's working state: the three collections being appended to,
      `seenKeys`, `coursesSet` and the tab interactions so far. */
  datatype Progress = Progress(
    announcements: seq<Record>,
    assignments: seq<Record>,
    others: seq<Record>,
    seen: set<string>,
    courses: seq<string>,
    trace: seq<Nav>)

  /** The collection records of category `k` are appended to. */
  function Collection(st: Progress, k: Kind): seq<Record> {
    match k
    case Announcement => st.announcements
    case Assignment => st.assignments
    case Other => st.others
  }

  function SnapshotCollection(s: Snapshot, k: Kind): seq<Record> {
    match k
    case Announcement => s.announcements
    case Assignment => s.assignments
    case Other => s.others
  }

  /** `${item.type}|${course.name}|${item.title}`. */
  function ItemKey(course: Course, it: ItemSummary): string {
    KeyOf(KindName(it.kind), course.name, it.title)
  }

  predicate NeedsDetail(k: Kind) {
    k == Announcement || k == Assignment
  }

  /** The item yields a record: it needs no detail page, or its detail was read. */
  predicate Captures(iv: ItemVisit) {
    !NeedsDetail(iv.summary.kind) || iv.detail.DetailRead?
  }

  /** `{ course: course.name, ...item, ...details, type }`. */
  function CapturedRecord(course: Course, iv: ItemVisit): (r: Record)
    requires Captures(iv)
    ensures RecordKey(r) == ItemKey(course, iv.summary)
    ensures r.course == course.name && r.kind == KindName(iv.summary.kind)
  {
    var it := iv.summary;
    var payload := if NeedsDetail(it.kind) then iv.detail.payload else NoDetail;
    Record(KindName(it.kind), course.name, it.title, it.clickSelector, payload)
  }

  function Append(st: Progress, k: Kind, r: Record): (st': Progress)
    ensures Collection(st', k) == Collection(st, k) + [r]
    ensures forall k' | k' != k :: Collection(st', k') == Collection(st, k')
    ensures st'.seen == st.seen && st'.courses == st.courses && st'.trace == st.trace
  {
    match k
    case Announcement => st.(announcements := st.announcements + [r])
    case Assignment => st.(assignments := st.assignments + [r])
    case Other => st.(others := st.others + [r])
  }

  /** The parts of the state later steps depend on: collections and seen keys. */
  ghost predicate SameData(a: Progress, b: Progress) {
    a.announcements == b.announcements && a.assignments == b.assignments
    && a.others == b.others && a.seen == b.seen
  }

  /** One pass of the inner loop, inside its own try/catch. */
  function ProcessItem(st: Progress, course: Course, iv: ItemVisit): (r: Progress)
    // skip-on-seen: nothing happens at all, not even a click
    ensures ItemKey(course, iv.summary) in st.seen ==> r == st
    // a captured item appends exactly one record under its own key and marks the key seen
    ensures ItemKey(course, iv.summary) !in st.seen && Captures(iv) ==>
              && Collection(r, iv.summary.kind) == Collection(st, iv.summary.kind) + [CapturedRecord(course, iv)]
              && (forall k | k != iv.summary.kind :: Collection(r, k) == Collection(st, k))
              && r.seen == st.seen + {ItemKey(course, iv.summary)}
    // a failing item changes no collection and leaves its key unseen
    ensures !Captures(iv) ==> SameData(r, st)
    // once the detail view was entered, the tab is sent back to the course page
    ensures ItemKey(course, iv.summary) !in st.seen && NeedsDetail(iv.summary.kind) ==>
              r.trace == st.trace + [Click(iv.summary.clickSelector)]
                         + (if iv.detail.ClickTargetMissing? then [] else [Navigate(course.url)])
    // an unseen `other` item is read from the listing alone: no click, no navigation
    ensures ItemKey(course, iv.summary) !in st.seen && !NeedsDetail(iv.summary.kind) ==> r.trace == st.trace
    ensures r.courses == st.courses
  {
    var it := iv.summary;
    var key := ItemKey(course, it);
    if key in st.seen then st
    else if !NeedsDetail(it.kind) then
      Append(st, it.kind, CapturedRecord(course, iv)).(seen := st.seen + {key})
    else
      var clicked := st.(trace := st.trace + [Click(it.clickSelector)]);
      match iv.detail
      case ClickTargetMissing => clicked
      case DetailTimeout => clicked.(trace := clicked.trace + [Navigate(course.url)])
      case DetailRead(_) =>
        Append(clicked, it.kind, CapturedRecord(course, iv))
          .(seen := st.seen + {key}, trace := clicked.trace + [Navigate(course.url)])
  }

  /** The inner loop over a course's listed items, in page order. */
  function ProcessItems(st: Progress, course: Course, items: seq<ItemVisit>): (r: Progress)
    ensures r.courses == st.courses
    ensures st.seen <= r.seen
    decreases |items|
  {
    if items == [] then st
    else ProcessItems(ProcessItem(st, course, items[0]), course, items[1..])
  }

  /** Entering a course: its name is added to the course set and the tab
      loads its page; nothing else changes. */
  function Enter(st: Progress, cv: CourseVisit): (r: Progress)
    ensures SameData(r, st)
    ensures r.courses == Insert(st.courses, cv.course.name)
    ensures r.trace == st.trace + [Navigate(cv.course.url)]
  {
    st.(courses := Insert(st.courses, cv.course.name), trace := st.trace + [Navigate(cv.course.url)])
  }

  /** One pass of the outer loop, inside its own try/catch: the course name is
      registered first, so a course whose page never loads is still listed. */
  function ProcessCourse(st: Progress, cv: CourseVisit): (r: Progress)
    ensures r.courses == Insert(st.courses, cv.course.name)
    ensures st.seen <= r.seen
    ensures cv.listing.ListingTimeout? ==> SameData(r, st)
  {
    var entered := Enter(st, cv);
    match cv.listing
    case ListingTimeout => entered
    case ListingRead(items) => ProcessItems(entered, cv.course, items)
  }

  /** The outer loop over the discovered courses, in order. */
  function ProcessCourses(st: Progress, cs: seq<CourseVisit>): (r: Progress)
    ensures st.courses <= r.courses
    ensures forall i | 0 <= i < |cs| :: cs[i].course.name in r.courses
    ensures Distinct(st.courses) ==> Distinct(r.courses)
    ensures st.seen <= r.seen
    decreases |cs|
  {
    if cs == [] then st
    else
      var next := ProcessCourse(st, cs[0]);
      var r := ProcessCourses(next, cs[1..]);
      assert forall i | 1 <= i < |cs| :: cs[i] == cs[1..][i - 1];
      r
  }

  /** The complete records of one stored collection, typed with its fallback. */
  function SeedRecords(snap: Snapshot, k: Kind): seq<Record> {
    Canonical(SnapshotCollection(snap, k), KindName(k))
  }

  /** The keys `seedSeenKeys` collects from all three stored collections. */
  function SeedKeys(snap: Snapshot): set<string> {
    CompleteKeys(snap.announcements, KindName(Announcement))
    + CompleteKeys(snap.assignments, KindName(Assignment))
    + CompleteKeys(snap.others, KindName(Other))
  }

  lemma CourseListed(rs: seq<Record>, x: Record)
    requires x in rs
    ensures x.course in CoursesOf(rs)
  {
    var i :| 0 <= i < |rs| && rs[i] == x;
    assert CoursesOf(rs)[i] == x.course;
  }

  /** `coursesSet` after seeding: the stored course list first, then the
      courses of the complete stored records, each name once. */
  function SeedCourses(snap: Snapshot): (cs: seq<string>)
    ensures Distinct(cs)
    ensures forall c | c in snap.courses :: c in cs
    ensures forall k: Kind, x | x in SeedRecords(snap, k) :: x.course in cs
  {
    var a := CoursesOf(SeedRecords(snap, Announcement));
    var b := CoursesOf(SeedRecords(snap, Assignment));
    var o := CoursesOf(SeedRecords(snap, Other));
    var c0 := InsertAll([], snap.courses);
    var c1 := InsertAll(c0, a);
    var c2 := InsertAll(c1, b);
    var c3 := InsertAll(c2, o);
    PrefixKeeps(c0, c3);
    forall k: Kind, x | x in SeedRecords(snap, k) ensures x.course in c3 {
      CourseListed(SeedRecords(snap, k), x);
      if k == Announcement {
        assert x.course in a;
        PrefixKeeps(c1, c3);
      } else if k == Assignment {
        assert x.course in b;
        PrefixKeeps(c2, c3);
      } else {
        assert x.course in o;
      }
    }
    c3
  }

  /** The state before the course loop: copies of the stored collections,
      `seenKeys` from their complete records, and `coursesSet`. */
  function Seed(snap: Snapshot): Progress {
    Progress(snap.announcements, snap.assignments, snap.others, SeedKeys(snap), SeedCourses(snap), [])
  }

  /** Seeding from a stored course list without repeats that already names
      the course of every complete stored record leaves that list as it is,
      order included. */
  lemma SeedCoursesOfListed(snap: Snapshot)
    requires Distinct(snap.courses)
    requires forall k: Kind, x | x in SeedRecords(snap, k) :: x.course in snap.courses
    ensures SeedCourses(snap) == snap.courses
  {
    assert [] + snap.courses == snap.courses;
    InsertAllFresh([], snap.courses);
    forall k: Kind ensures InsertAll(snap.courses, CoursesOf(SeedRecords(snap, k))) == snap.courses {
      var rs := SeedRecords(snap, k);
      forall y | y in CoursesOf(rs) ensures y in snap.courses {
        var i :| 0 <= i < |rs| && CoursesOf(rs)[i] == y;
        assert rs[i] in rs;
      }
      InsertAllPresent(snap.courses, CoursesOf(rs));
    }
  }

  /** Seeding copies every stored collection unchanged. */
  lemma SeedCollection(snap: Snapshot, k: Kind)
    ensures Collection(Seed(snap), k) == SnapshotCollection(snap, k)
  {
  }

  /** Seeding puts the key of every complete stored record, in any of the
      three collections, into the seen set. */
  lemma SeedSeesStored(snap: Snapshot, k: Kind, x: Record)
    requires x in SeedRecords(snap, k)
    ensures RecordKey(x) in Seed(snap).seen
  {
    FirstWins.KeySetHas(SeedRecords(snap, k), RecordKey, x);
    if k == Announcement {} else if k == Assignment {} else {}
  }

  /** What every snapshot a run writes satisfies: in each collection only
      complete records, no key twice; no course name twice. */
  ghost predicate Sound(s: Snapshot) {
    && (forall k: Kind :: FirstWins.DistinctKeys(SnapshotCollection(s, k), RecordKey))
    && (forall k: Kind, i | 0 <= i < |SnapshotCollection(s, k)| :: Complete(SnapshotCollection(s, k)[i]))
    && Distinct(s.courses)
  }

  /** The snapshot written at the end: each collection deduplicated with its
      own fallback type, the course set in insertion order, the run's timestamp. */
  function Finish(st: Progress, now: string): (s: Snapshot)
    ensures forall k: Kind :: SnapshotCollection(s, k) == Dedupe(Collection(st, k), KindName(k))
    ensures s.courses == st.courses && s.lastUpdated == Some(now)
  {
    Snapshot(
      Dedupe(st.announcements, KindName(Announcement)),
      Dedupe(st.assignments, KindName(Assignment)),
      Dedupe(st.others, KindName(Other)),
      st.courses,
      Some(now))
  }

  /** Each written collection has unique keys, holds only complete records,
      and carries exactly the keys of the complete records the loop gathered
      under that collection's fallback type. */
  lemma FinishCollections(st: Progress, now: string, k: Kind)
    ensures var d := SnapshotCollection(Finish(st, now), k);
            && FirstWins.DistinctKeys(d, RecordKey)
            && (forall i | 0 <= i < |d| :: Complete(d[i]))
            && FirstWins.KeySet(d, RecordKey) == CompleteKeys(Collection(st, k), KindName(k))
  {
    assert SnapshotCollection(Finish(st, now), k) == Dedupe(Collection(st, k), KindName(k));
  }

  /** Whatever the loop gathered, the written snapshot has unique keys and
      complete records in every collection; a duplicate-free course set
      makes it sound. */
  lemma FinishSound(st: Progress, now: string)
    requires Distinct(st.courses)
    ensures Sound(Finish(st, now))
  {
    var s := Finish(st, now);
    forall k: Kind
      ensures FirstWins.DistinctKeys(SnapshotCollection(s, k), RecordKey)
      ensures forall i | 0 <= i < |SnapshotCollection(s, k)| :: Complete(SnapshotCollection(s, k)[i])
    {
      assert SnapshotCollection(s, k) == Dedupe(Collection(st, k), KindName(k));
    }
  }

  /** A run that found courses and read the store: the course loop from the
      seeded state, the final dedupe, and the return to the origin page. */
  function Completed(origin: string, discovered: seq<CourseVisit>, snap: Snapshot, now: string): (r: RunResult)
    ensures r.status == Idle && r.written.Some?
    ensures |r.trace| > 0 && r.trace[|r.trace| - 1] == Navigate(origin)
    ensures Sound(r.written.value)
    ensures forall c | c in snap.courses :: c in r.written.value.courses
    ensures forall i | 0 <= i < |discovered| :: discovered[i].course.name in r.written.value.courses
    ensures r.written.value.lastUpdated == Some(now)
  {
    var st := ProcessCourses(Seed(snap), discovered);
    LoopCourses(snap, discovered);
    var w := Finish(st, now);
    FinishSound(st, now);
    assert Sound(w) && w.courses == st.courses && w.lastUpdated == Some(now);
    RunResult(Idle, Some(w), st.trace + [Navigate(origin)])
  }

  /** The course set after the loop over a seeded state: no name twice, every
      stored and every discovered course present. */
  lemma LoopCourses(snap: Snapshot, discovered: seq<CourseVisit>)
    ensures var cs := ProcessCourses(Seed(snap), discovered).courses;
            && Distinct(cs)
            && (forall c | c in snap.courses :: c in cs)
            && (forall i | 0 <= i < |discovered| :: discovered[i].course.name in cs)
  {
    var s0 := Seed(snap);
    assert s0.courses == SeedCourses(snap);
    PrefixKeeps(s0.courses, ProcessCourses(s0, discovered).courses);
  }

  /** `runAggregation`: the outcome and every tab interaction of one run. */
  function Run(origin: string, discovered: seq<CourseVisit>, store: StoreRead, now: string): (r: RunResult)
    // the final interaction is always the return to the origin page
    ensures |r.trace| > 0 && r.trace[|r.trace| - 1] == Navigate(origin)
    // no discovered course is fatal: error status, nothing written, nothing visited
    ensures |discovered| == 0 ==> r == RunResult(Error(NoCourses), None, [Navigate(origin)])
    ensures |discovered| > 0 && store.Unreadable? ==> r == RunResult(Error(StoreUnreadable), None, [Navigate(origin)])
    ensures r.status == Idle <==> r.written.Some?
    // a written snapshot has unique keys, complete records and unique course names
    ensures r.written.Some? ==> Sound(r.written.value)
    // the written course list covers the prior and the discovered courses
    ensures r.written.Some? ==>
              && (forall c | c in store.snapshot.courses :: c in r.written.value.courses)
              && (forall i | 0 <= i < |discovered| :: discovered[i].course.name in r.written.value.courses)
              && r.written.value.lastUpdated == Some(now)
  {
    if |discovered| == 0 then RunResult(Error(NoCourses), None, [Navigate(origin)])
    else if store.Unreadable? then RunResult(Error(StoreUnreadable), None, [Navigate(origin)])
    else Completed(origin, discovered, store.snapshot, now)
  }
}
