/**
  What `runAggregation` promises across a whole run: it only appends to
  copies of the stored collections, so the deduplicated prior records survive
  in front of everything new; a failing item or course leaves no trace in the
  collections; and once a key is captured, every later item with that key is
  skipped.
 */
module RunProperties {
  import opened Store
  import opened PageReader
  import opened Engine
  import FirstWins
  import Options

  /** `after` is `before` followed only by records of type `name`, whose keys
      were not yet in `seen0`, are in `seen1`, and differ pairwise. */
  ghost predicate AppendOnly(before: seq<Record>, after: seq<Record>, name: string, seen0: set<string>, seen1: set<string>) {
    && before <= after
    && (forall i | |before| <= i < |after| ::
          after[i].kind == name && RecordKey(after[i]) in seen1 && RecordKey(after[i]) !in seen0)
    && (forall i, j | |before| <= i < j < |after| :: RecordKey(after[i]) != RecordKey(after[j]))
  }

  /** `b` is a later state of the same run as `a`: the seen keys only grew
      and every collection only grew by records under new keys. */
  ghost predicate Extends(a: Progress, b: Progress) {
    && a.seen <= b.seen
    && forall k: Kind :: AppendOnly(Collection(a, k), Collection(b, k), KindName(k), a.seen, b.seen)
  }

  lemma AppendOnlyTrans(a: seq<Record>, b: seq<Record>, c: seq<Record>, name: string,
                        s0: set<string>, s1: set<string>, s2: set<string>)
    requires s0 <= s1 <= s2
    requires AppendOnly(a, b, name, s0, s1) && AppendOnly(b, c, name, s1, s2)
    ensures AppendOnly(a, c, name, s0, s2)
  {
    forall i | |a| <= i < |c|
      ensures c[i].kind == name && RecordKey(c[i]) in s2 && RecordKey(c[i]) !in s0
    {
      if i < |b| {
        assert c[i] == b[i];
      }
    }
    forall i, j | |a| <= i < j < |c| ensures RecordKey(c[i]) != RecordKey(c[j]) {
      if j < |b| {
        assert c[i] == b[i] && c[j] == b[j];
      } else if i < |b| {
        assert c[i] == b[i];
        assert RecordKey(c[i]) in s1 && RecordKey(c[j]) !in s1;
      }
    }
  }

  lemma ExtendsTrans(a: Progress, b: Progress, c: Progress)
    requires Extends(a, b) && Extends(b, c)
    ensures Extends(a, c)
  {
    forall k: Kind ensures AppendOnly(Collection(a, k), Collection(c, k), KindName(k), a.seen, c.seen) {
      AppendOnlyTrans(Collection(a, k), Collection(b, k), Collection(c, k), KindName(k), a.seen, b.seen, c.seen);
    }
  }

  /** A state that only differs from `a` in its course list and trace is not
      an extension of anything `a` is not. */
  lemma ExtendsSameData(a: Progress, a': Progress, b: Progress)
    requires SameData(a, a') && Extends(a', b)
    ensures Extends(a, b)
  {
    assert forall k: Kind :: Collection(a, k) == Collection(a', k);
  }

  /** One item appends at most one record, to the collection of its own
      category, under a key it adds to the seen set; it adds no other key. */
  lemma ProcessItemExtends(st: Progress, course: Course, iv: ItemVisit)
    ensures Extends(st, ProcessItem(st, course, iv))
    ensures var r := ProcessItem(st, course, iv);
            && |Collection(r, iv.summary.kind)| <= |Collection(st, iv.summary.kind)| + 1
            && (forall k | k != iv.summary.kind :: Collection(r, k) == Collection(st, k))
            && r.seen <= st.seen + {ItemKey(course, iv.summary)}
  {
    var r := ProcessItem(st, course, iv);
    var key := ItemKey(course, iv.summary);
    if key !in st.seen && Captures(iv) {
      var rec := CapturedRecord(course, iv);
      forall k: Kind ensures AppendOnly(Collection(st, k), Collection(r, k), KindName(k), st.seen, r.seen) {
        if k == iv.summary.kind {
          assert Collection(r, k) == Collection(st, k) + [rec];
          assert Collection(r, k)[|Collection(st, k)|] == rec;
        }
      }
    } else if key !in st.seen {
      ExtendsSameData(st, r, r);
    }
  }

  lemma {:induction false} ProcessItemsExtends(st: Progress, course: Course, items: seq<ItemVisit>)
    ensures Extends(st, ProcessItems(st, course, items))
    decreases |items|
  {
    if items != [] {
      var next := ProcessItem(st, course, items[0]);
      ProcessItemExtends(st, course, items[0]);
      ProcessItemsExtends(next, course, items[1..]);
      ExtendsTrans(st, next, ProcessItems(next, course, items[1..]));
    }
  }

  lemma ProcessCourseExtends(st: Progress, cv: CourseVisit)
    ensures Extends(st, ProcessCourse(st, cv))
  {
    var entered := Enter(st, cv);
    match cv.listing
    case ListingTimeout =>
      ExtendsSameData(st, ProcessCourse(st, cv), ProcessCourse(st, cv));
    case ListingRead(items) =>
      ProcessItemsExtends(entered, cv.course, items);
      ExtendsSameData(st, entered, ProcessCourse(st, cv));
  }

  /** The course loop only ever appends, under keys the seed did not hold. */
  lemma {:induction false} ProcessCoursesExtends(st: Progress, cs: seq<CourseVisit>)
    ensures Extends(st, ProcessCourses(st, cs))
    decreases |cs|
  {
    if cs != [] {
      var next := ProcessCourse(st, cs[0]);
      ProcessCourseExtends(st, cs[0]);
      ProcessCoursesExtends(next, cs[1..]);
      ExtendsTrans(st, next, ProcessCourses(next, cs[1..]));
    }
  }

  /** Records that already carry the fallback type, under distinct keys none
      of which is in `taken`, pass both the typing and the first-wins scan
      untouched, except that incomplete ones are dropped. */
  lemma {:induction false} CanonicalFresh(s: seq<Record>, fallback: string, taken: set<string>)
    requires forall i | 0 <= i < |s| :: s[i].kind == fallback && RecordKey(s[i]) !in taken
    requires FirstWins.DistinctKeys(s, RecordKey)
    ensures FirstWins.KeepFirstAfter(Canonical(s, fallback), RecordKey, taken) == Canonical(s, fallback)
    decreases |s|
  {
    if s != [] {
      var x := s[0];
      var rest := s[1..];
      assert forall i | 0 <= i < |rest| :: rest[i] == s[i + 1];
      assert WithType(x, fallback) == x;
      if Complete(x) {
        assert forall i | 0 <= i < |rest| :: RecordKey(rest[i]) != RecordKey(x);
        CanonicalFresh(rest, fallback, taken + {RecordKey(x)});
        assert Canonical(s, fallback) == [x] + Canonical(rest, fallback);
      } else {
        CanonicalFresh(rest, fallback, taken);
        assert Canonical(s, fallback) == Canonical(rest, fallback);
      }
    }
  }

  lemma PrefixSplit(p: seq<Record>, c: seq<Record>)
    requires p <= c
    ensures c == p + c[|p|..]
  {
    assert p == c[..|p|];
  }

  /** Deduplicating a collection that only grew by records under new keys:
      the deduplicated original stays in front, followed by the complete
      records that were added, in order. */
  lemma DedupeAppendOnly(p: seq<Record>, c: seq<Record>, fallback: string, seen0: set<string>, seen1: set<string>)
    requires AppendOnly(p, c, fallback, seen0, seen1)
    requires CompleteKeys(p, fallback) <= seen0
    ensures Dedupe(c, fallback) == Dedupe(p, fallback) + Canonical(c[|p|..], fallback)
  {
    var s := c[|p|..];
    PrefixSplit(p, c);
    assert forall i | 0 <= i < |s| :: s[i] == c[|p| + i];
    CanonicalFresh(s, fallback, CompleteKeys(p, fallback));
    DedupeAppend(p, s, fallback);
  }

  /** The complete records kept from `s` keep the properties all of `s` had. */
  lemma CanonicalKeeps(s: seq<Record>, fallback: string, excluded: set<string>)
    requires forall i | 0 <= i < |s| :: s[i].kind == fallback && RecordKey(s[i]) !in excluded
    ensures forall x | x in Canonical(s, fallback) :: x.kind == fallback && RecordKey(x) !in excluded
  {
    forall x | x in Canonical(s, fallback) ensures x.kind == fallback && RecordKey(x) !in excluded {
      CanonicalFrom(s, fallback, x);
      var j :| 0 <= j < |s| && x == WithType(s[j], fallback);
    }
  }

  /** Deduplicating a collection that only grew by records under new keys
      keeps the deduplicated original in front, and everything after it
      carries the collection's type and a new key. */
  lemma DedupeKeepsPrior(p: seq<Record>, c: seq<Record>, fallback: string, seen0: set<string>, seen1: set<string>)
    requires AppendOnly(p, c, fallback, seen0, seen1)
    requires CompleteKeys(p, fallback) <= seen0
    ensures var d := Dedupe(c, fallback);
            var prior := Dedupe(p, fallback);
            && prior <= d
            && CompleteKeys(p, fallback) <= FirstWins.KeySet(d, RecordKey)
            && forall i | |prior| <= i < |d| :: d[i].kind == fallback && RecordKey(d[i]) !in seen0
  {
    var prior := Dedupe(p, fallback);
    var added := Canonical(c[|p|..], fallback);
    DedupeAppendOnly(p, c, fallback, seen0, seen1);
    KeysOfConcat(prior, added, CompleteKeys(p, fallback));
    CanonicalKeeps(c[|p|..], fallback, seen0);
    TailOfConcat(prior, added, fallback, seen0);
  }

  lemma KeysOfConcat(prior: seq<Record>, added: seq<Record>, keys: set<string>)
    requires FirstWins.KeySet(prior, RecordKey) == keys
    ensures keys <= FirstWins.KeySet(prior + added, RecordKey)
  {
    FirstWins.KeySetAppend(prior, added, RecordKey);
  }

  lemma TailOfConcat(prior: seq<Record>, added: seq<Record>, fallback: string, excluded: set<string>)
    requires forall x | x in added :: x.kind == fallback && RecordKey(x) !in excluded
    ensures var d := prior + added;
            forall i | |prior| <= i < |d| :: d[i].kind == fallback && RecordKey(d[i]) !in excluded
  {
    var d := prior + added;
    assert forall i | |prior| <= i < |d| :: d[i] == added[i - |prior|];
  }

  /** Seeding takes the keys of every stored collection. */
  lemma SeedKeysCover(snap: Snapshot, k: Kind)
    ensures CompleteKeys(SnapshotCollection(snap, k), KindName(k)) <= SeedKeys(snap)
  {
    if k == Announcement {} else if k == Assignment {} else {}
  }

  /** A run over a readable store writes what the course loop from the
      seeded state leaves, deduplicated. */
  lemma RunWrites(origin: string, discovered: seq<CourseVisit>, snap: Snapshot, now: string)
    requires |discovered| > 0
    ensures Run(origin, discovered, Loaded(snap), now).written
         == Options.Some(Finish(ProcessCourses(Seed(snap), discovered), now))
  {
  }

  /** Nothing is lost from the stored snapshot: every written collection is
      the deduplicated stored collection, unchanged and in front, followed
      only by records of the collection's own type under keys that no stored
      record carried; so every key of a complete stored record is still there. */
  lemma RunKeepsPrior(origin: string, discovered: seq<CourseVisit>, snap: Snapshot, now: string, k: Kind)
    requires |discovered| > 0
    ensures var w := Run(origin, discovered, Loaded(snap), now).written.value;
            var prior := Dedupe(SnapshotCollection(snap, k), KindName(k));
            && prior <= SnapshotCollection(w, k)
            && CompleteKeys(SnapshotCollection(snap, k), KindName(k)) <= FirstWins.KeySet(SnapshotCollection(w, k), RecordKey)
            && forall i | |prior| <= i < |SnapshotCollection(w, k)| ::
                 && SnapshotCollection(w, k)[i].kind == KindName(k)
                 && RecordKey(SnapshotCollection(w, k)[i]) !in SeedKeys(snap)
  {
    var st := ProcessCourses(Seed(snap), discovered);
    var p := SnapshotCollection(snap, k);
    ProcessCoursesExtends(Seed(snap), discovered);
    SeedCollection(snap, k);
    SeedKeysCover(snap, k);
    DedupeKeepsPrior(p, Collection(st, k), KindName(k), SeedKeys(snap), st.seen);
    RunWrites(origin, discovered, snap, now);
  }

  /** The item loop splits at any point: the second part continues from the
      state the first part leaves. */
  lemma {:induction false} ProcessItemsAppend(st: Progress, course: Course, xs: seq<ItemVisit>, ys: seq<ItemVisit>)
    ensures ProcessItems(st, course, xs + ys) == ProcessItems(ProcessItems(st, course, xs), course, ys)
    decreases |xs|
  {
    if xs == [] {
      assert xs + ys == ys;
    } else {
      assert (xs + ys)[0] == xs[0];
      assert (xs + ys)[1..] == xs[1..] + ys;
      ProcessItemsAppend(ProcessItem(st, course, xs[0]), course, xs[1..], ys);
    }
  }

  /** What an item does to the collections depends only on the collections and the seen keys. */
  lemma ProcessItemCongruent(a: Progress, b: Progress, course: Course, iv: ItemVisit)
    requires SameData(a, b)
    ensures SameData(ProcessItem(a, course, iv), ProcessItem(b, course, iv))
  {
    if ItemKey(course, iv.summary) !in a.seen && Captures(iv) {
      var ra := ProcessItem(a, course, iv);
      var rb := ProcessItem(b, course, iv);
      assert forall k: Kind :: Collection(a, k) == Collection(b, k);
      assert forall k: Kind :: Collection(ra, k) == Collection(rb, k);
      assert Collection(ra, Announcement) == Collection(rb, Announcement);
      assert Collection(ra, Assignment) == Collection(rb, Assignment);
      assert Collection(ra, Other) == Collection(rb, Other);
    }
  }

  lemma {:induction false} ProcessItemsCongruent(a: Progress, b: Progress, course: Course, items: seq<ItemVisit>)
    requires SameData(a, b)
    ensures SameData(ProcessItems(a, course, items), ProcessItems(b, course, items))
    decreases |items|
  {
    if items != [] {
      ProcessItemCongruent(a, b, course, items[0]);
      ProcessItemsCongruent(ProcessItem(a, course, items[0]), ProcessItem(b, course, items[0]), course, items[1..]);
    }
  }

  /** Failure isolation per item: an item whose detail view fails leaves the
      collections and seen keys exactly as if it had not been listed, so the
      items after it are processed as they would have been anyway. */
  lemma FailedItemIsolated(st: Progress, course: Course, before: seq<ItemVisit>, bad: ItemVisit, after: seq<ItemVisit>)
    requires !Captures(bad)
    ensures SameData(ProcessItems(st, course, before + [bad] + after), ProcessItems(st, course, before + after))
  {
    var mid := ProcessItems(st, course, before);
    var tail := [bad] + after;
    assert before + [bad] + after == before + tail;
    ProcessItemsAppend(st, course, before, tail);
    ProcessItemsAppend(st, course, before, after);
    assert tail[0] == bad && tail[1..] == after;
    assert ProcessItems(mid, course, tail) == ProcessItems(ProcessItem(mid, course, bad), course, after);
    ProcessItemsCongruent(ProcessItem(mid, course, bad), mid, course, after);
  }

  lemma ProcessCourseCongruent(a: Progress, b: Progress, cv: CourseVisit)
    requires SameData(a, b)
    ensures SameData(ProcessCourse(a, cv), ProcessCourse(b, cv))
  {
    var ea := a.(courses := Insert(a.courses, cv.course.name), trace := a.trace + [Navigate(cv.course.url)]);
    var eb := b.(courses := Insert(b.courses, cv.course.name), trace := b.trace + [Navigate(cv.course.url)]);
    if cv.listing.ListingRead? {
      ProcessItemsCongruent(ea, eb, cv.course, cv.listing.items);
    }
  }

  lemma {:induction false} ProcessCoursesCongruent(a: Progress, b: Progress, cs: seq<CourseVisit>)
    requires SameData(a, b)
    ensures SameData(ProcessCourses(a, cs), ProcessCourses(b, cs))
    decreases |cs|
  {
    if cs != [] {
      ProcessCourseCongruent(a, b, cs[0]);
      ProcessCoursesCongruent(ProcessCourse(a, cs[0]), ProcessCourse(b, cs[0]), cs[1..]);
    }
  }

  lemma {:induction false} ProcessCoursesAppend(st: Progress, xs: seq<CourseVisit>, ys: seq<CourseVisit>)
    ensures ProcessCourses(st, xs + ys) == ProcessCourses(ProcessCourses(st, xs), ys)
    decreases |xs|
  {
    if xs == [] {
      assert xs + ys == ys;
    } else {
      assert (xs + ys)[0] == xs[0];
      assert (xs + ys)[1..] == xs[1..] + ys;
      ProcessCoursesAppend(ProcessCourse(st, xs[0]), xs[1..], ys);
    }
  }

  /** Failure isolation per course: a course whose item list never appears
      changes no collection and no seen key, so the courses after it are
      processed as they would have been anyway. */
  lemma FailedCourseIsolated(st: Progress, before: seq<CourseVisit>, bad: CourseVisit, after: seq<CourseVisit>)
    requires bad.listing.ListingTimeout?
    ensures SameData(ProcessCourses(st, before + [bad] + after), ProcessCourses(st, before + after))
  {
    var mid := ProcessCourses(st, before);
    var tail := [bad] + after;
    assert before + [bad] + after == before + tail;
    ProcessCoursesAppend(st, before, tail);
    ProcessCoursesAppend(st, before, after);
    assert tail[0] == bad && tail[1..] == after;
    assert ProcessCourses(mid, tail) == ProcessCourses(ProcessCourse(mid, bad), after);
    ProcessCoursesCongruent(ProcessCourse(mid, bad), mid, after);
  }

  /** The same at the level of the written snapshot: the unreachable course
      contributes its name to the course list and nothing else. */
  lemma RunIgnoresFailedCourse(origin: string, before: seq<CourseVisit>, bad: CourseVisit, after: seq<CourseVisit>,
                               snap: Snapshot, now: string)
    requires bad.listing.ListingTimeout?
    requires |before + after| > 0
    ensures var w1 := Run(origin, before + [bad] + after, Loaded(snap), now).written.value;
            var w2 := Run(origin, before + after, Loaded(snap), now).written.value;
            && w1.announcements == w2.announcements
            && w1.assignments == w2.assignments
            && w1.others == w2.others
            && bad.course.name in w1.courses
  {
    var cs := before + [bad] + after;
    assert cs[|before|] == bad;
    FailedCourseIsolated(Seed(snap), before, bad, after);
  }

  /** The course loop adds no course name other than the discovered ones. */
  lemma {:induction false} ProcessCoursesOnlyListed(st: Progress, cs: seq<CourseVisit>, y: string)
    requires y in ProcessCourses(st, cs).courses
    ensures y in st.courses || exists i | 0 <= i < |cs| :: cs[i].course.name == y
    decreases |cs|
  {
    if cs != [] {
      var next := ProcessCourse(st, cs[0]);
      ProcessCoursesOnlyListed(next, cs[1..], y);
      if y !in next.courses {
        var i :| 0 <= i < |cs[1..]| && cs[1..][i].course.name == y;
        assert cs[i + 1].course.name == y;
      } else if y !in st.courses {
        assert cs[0].course.name == y;
      }
    }
  }

  /** Seeding from the cleared snapshot gives no course and no seen key. */
  lemma ClearedSeedsNothing()
    ensures Seed(Cleared).courses == [] && Seed(Cleared).seen == {}
  {
    forall k: Kind ensures SeedRecords(Cleared, k) == [] {
      assert SnapshotCollection(Cleared, k) == [];
    }
    assert CoursesOf(SeedRecords(Cleared, Announcement)) == [];
    assert CoursesOf(SeedRecords(Cleared, Assignment)) == [];
    assert CoursesOf(SeedRecords(Cleared, Other)) == [];
  }

  /** A run after `CLEAR_DATA` writes exactly the discovered course names. */
  lemma ClearedRunCourses(origin: string, discovered: seq<CourseVisit>, now: string)
    requires |discovered| > 0
    ensures var w := Run(origin, discovered, Loaded(Cleared), now).written.value;
            forall c :: c in w.courses <==> exists i | 0 <= i < |discovered| :: discovered[i].course.name == c
  {
    var st := ProcessCourses(Seed(Cleared), discovered);
    ClearedSeedsNothing();
    assert Run(origin, discovered, Loaded(Cleared), now) == Completed(origin, discovered, Cleared, now);
    assert Run(origin, discovered, Loaded(Cleared), now).written.value.courses == st.courses;
    forall c | c in st.courses ensures exists i | 0 <= i < |discovered| :: discovered[i].course.name == c {
      ProcessCoursesOnlyListed(Seed(Cleared), discovered, c);
    }
  }

  /** A run after `CLEAR_DATA` writes only records it captured itself: each
      carries its collection's type. */
  lemma ClearedRunRecords(origin: string, discovered: seq<CourseVisit>, now: string, k: Kind)
    requires |discovered| > 0
    ensures var w := Run(origin, discovered, Loaded(Cleared), now).written.value;
            forall i | 0 <= i < |SnapshotCollection(w, k)| :: SnapshotCollection(w, k)[i].kind == KindName(k)
  {
    assert SnapshotCollection(Cleared, k) == [];
    assert Canonical([], KindName(k)) == [];
    assert FirstWins.KeepFirstAfter([], RecordKey, {}) == [];
    assert |Dedupe(SnapshotCollection(Cleared, k), KindName(k))| == 0;
    RunKeepsPrior(origin, discovered, Cleared, now, k);
  }

  /** The position of item `j` of discovered course `m`: the course exists,
      its listing was read, and `j` is at most its item count. */
  predicate ItemPosition(cs: seq<CourseVisit>, m: int, j: int) {
    0 <= m < |cs| && cs[m].listing.ListingRead? && 0 <= j <= |cs[m].listing.items|
  }

  /** The state in which the run handles item `j` of course `m`: the courses
      before `m` done, course `m` entered, and its first `j` items done. */
  function Before(st: Progress, cs: seq<CourseVisit>, m: int, j: int): Progress
    requires ItemPosition(cs, m, j)
  {
    ProcessItems(Enter(ProcessCourses(st, cs[..m]), cs[m]), cs[m].course, cs[m].listing.items[..j])
  }

  /** The single-item and single-course cases of the loops. */
  lemma ProcessItemsOne(st: Progress, course: Course, iv: ItemVisit)
    ensures ProcessItems(st, course, [iv]) == ProcessItem(st, course, iv)
  {
    assert [iv][1..] == [];
  }

  lemma ProcessCoursesOne(st: Progress, cv: CourseVisit)
    ensures ProcessCourses(st, [cv]) == ProcessCourse(st, cv)
  {
    assert [cv][1..] == [];
  }

  /** The item loop over a prefix one item longer: that item is handled in
      the state the shorter prefix left. */
  lemma ProcessItemsSnoc(s0: Progress, course: Course, items: seq<ItemVisit>, j: int)
    requires 0 <= j < |items|
    ensures ProcessItems(s0, course, items[..j + 1])
         == ProcessItem(ProcessItems(s0, course, items[..j]), course, items[j])
  {
    var done, x := items[..j], items[j];
    var s := ProcessItems(s0, course, done);
    calc {
      ProcessItems(s0, course, items[..j + 1]);
      { assert items[..j + 1] == done + [x]; }
      ProcessItems(s0, course, done + [x]);
      { ProcessItemsAppend(s0, course, done, [x]); }
      ProcessItems(s, course, [x]);
      { ProcessItemsOne(s, course, x); }
      ProcessItem(s, course, x);
    }
  }

  /** Handling item `j` leads from the state before it to the state before
      item `j + 1`. */
  lemma BeforeNext(st: Progress, cs: seq<CourseVisit>, m: int, j: int)
    requires ItemPosition(cs, m, j) && j < |cs[m].listing.items|
    ensures Before(st, cs, m, j + 1) == ProcessItem(Before(st, cs, m, j), cs[m].course, cs[m].listing.items[j])
  {
    ProcessItemsSnoc(Enter(ProcessCourses(st, cs[..m]), cs[m]), cs[m].course, cs[m].listing.items, j);
  }

  /** Within one course, seen keys only grow from item to item. */
  lemma BeforeSeenWithin(st: Progress, cs: seq<CourseVisit>, m: int, j: int, j': int)
    requires ItemPosition(cs, m, j') && 0 <= j <= j'
    ensures Before(st, cs, m, j).seen <= Before(st, cs, m, j').seen
  {
    var items := cs[m].listing.items;
    var entered := Enter(ProcessCourses(st, cs[..m]), cs[m]);
    assert items[..j'] == items[..j] + items[j..j'];
    ProcessItemsAppend(entered, cs[m].course, items[..j], items[j..j']);
  }

  /** The seen keys before any item of course `m` lie between those of the
      courses before it and those of the courses up to and including it. */
  lemma BeforeSeenBetween(st: Progress, cs: seq<CourseVisit>, m: int, j: int)
    requires ItemPosition(cs, m, j)
    ensures ProcessCourses(st, cs[..m]).seen <= Before(st, cs, m, j).seen
    ensures Before(st, cs, m, j).seen <= ProcessCourses(st, cs[..m + 1]).seen
  {
    var items := cs[m].listing.items;
    var done := ProcessCourses(st, cs[..m]);
    assert cs[..m + 1] == cs[..m] + [cs[m]];
    ProcessCoursesAppend(st, cs[..m], [cs[m]]);
    ProcessCoursesOne(done, cs[m]);
    assert ProcessCourse(done, cs[m]) == ProcessItems(Enter(done, cs[m]), cs[m].course, items);
    assert items[..|items|] == items;
    BeforeSeenWithin(st, cs, m, j, |items|);
  }

  /** Across courses, seen keys only grow. */
  lemma CoursesSeenGrow(st: Progress, cs: seq<CourseVisit>, a: int, b: int)
    requires 0 <= a <= b <= |cs|
    ensures ProcessCourses(st, cs[..a]).seen <= ProcessCourses(st, cs[..b]).seen
  {
    assert cs[..b] == cs[..a] + cs[a..b];
    ProcessCoursesAppend(st, cs[..a], cs[a..b]);
  }

  /** Skip-on-seen across the whole run: once item `j1` of course `m1` has
      been captured, every later item, in the same course or any later one,
      whose key is the same string does nothing at all. This covers a course
      discovered twice and two items whose keys collide. */
  lemma LaterSameKeySkipped(st: Progress, cs: seq<CourseVisit>, m1: int, j1: int, m2: int, j2: int)
    requires ItemPosition(cs, m1, j1) && j1 < |cs[m1].listing.items|
    requires ItemPosition(cs, m2, j2) && j2 < |cs[m2].listing.items|
    requires m1 < m2 || (m1 == m2 && j1 < j2)
    requires Captures(cs[m1].listing.items[j1])
    requires ItemKey(cs[m2].course, cs[m2].listing.items[j2].summary)
          == ItemKey(cs[m1].course, cs[m1].listing.items[j1].summary)
    ensures var s := Before(st, cs, m2, j2);
            ProcessItem(s, cs[m2].course, cs[m2].listing.items[j2]) == s
  {
    var key := ItemKey(cs[m1].course, cs[m1].listing.items[j1].summary);
    BeforeNext(st, cs, m1, j1);
    assert key in Before(st, cs, m1, j1 + 1).seen;
    if m1 == m2 {
      BeforeSeenWithin(st, cs, m1, j1 + 1, j2);
    } else {
      BeforeSeenBetween(st, cs, m1, j1 + 1);
      CoursesSeenGrow(st, cs, m1 + 1, m2);
      BeforeSeenBetween(st, cs, m2, j2);
    }
  }

  /** Skip-on-seen against the stored snapshot: in every state in which the
      seeded run handles an item, an item whose key a complete stored record
      carries does nothing at all: no click, no record, no new key. */
  lemma StoredKeySkipped(snap: Snapshot, cs: seq<CourseVisit>, m: int, j: int)
    requires ItemPosition(cs, m, j) && j < |cs[m].listing.items|
    requires ItemKey(cs[m].course, cs[m].listing.items[j].summary) in SeedKeys(snap)
    ensures var s := Before(Seed(snap), cs, m, j);
            ProcessItem(s, cs[m].course, cs[m].listing.items[j]) == s
  {
    BeforeSeenBetween(Seed(snap), cs, m, j);
  }
}
