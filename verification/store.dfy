/**
  The aggregation store of background.js: the persisted snapshot, the identity
  key `type|course|title` of a record, the final first-write-wins dedupe pass
  (`dedupeCollection`) and the insertion-ordered course set.

  JavaScript fields that may be absent are strings here, with `""` standing
  for `undefined`. Background.js only tests them for truthiness; the one
  strict comparison, the course filter of popup.js:199, is where an absent
  course and `""` differ (see `Downloads.Candidates` in the README's
  "Left out" list).
 */
module Store {
  import opened Options
  import FirstWins

  /** The three item categories the course page reader tells apart. */
  datatype Kind = Announcement | Assignment | Other

  function KindName(k: Kind): string {
    match k
    case Announcement => "announcement"
    case Assignment => "assignment"
    case Other => "other"
  }

  datatype Attachment = Attachment(text: string, url: string)

  /** The type-specific fields a detail page contributed to a record (opaque text). */
  datatype Payload =
    | NoDetail
    | AnnouncementDetail(body: string, author: string)
    | AssignmentDetail(dueDate: string, instructions: string, attachments: seq<Attachment>)

  /** A persisted item. `kind` is the stored `type` field, which a record read
      back from storage may lack (`""`). */
  datatype Record = Record(kind: string, course: string, title: string, clickSelector: string, payload: Payload)

  /** The `aggregatedData` object. A missing snapshot, or a collection that is
      not an array, is represented by the empty one: the code treats them alike. */
  datatype Snapshot = Snapshot(
    announcements: seq<Record>,
    assignments: seq<Record>,
    others: seq<Record>,
    courses: seq<string>,
    lastUpdated: Option<string>)

  /** The identity key of an item, as the template literal `${type}|${course}|${title}`. */
  function KeyOf(kind: string, course: string, title: string): string {
    kind + "|" + course + "|" + title
  }

  function RecordKey(r: Record): string {
    KeyOf(r.kind, r.course, r.title)
  }

  /** `{ ...item, type: item.type || fallbackType }`. */
  function WithType(r: Record, fallback: string): (f: Record)
    ensures f.kind == (if r.kind != "" then r.kind else fallback)
    ensures f.(kind := r.kind) == r
  {
    if r.kind != "" then r else r.(kind := fallback)
  }

  /** A record the seeding and dedupe passes accept: type, course and title all truthy. */
  predicate Complete(r: Record) {
    r.kind != "" && r.course != "" && r.title != ""
  }

  /** The records one pass over a collection considers, typed and in order;
      incomplete ones are dropped. */
  function Canonical(items: seq<Record>, fallback: string): (c: seq<Record>)
    ensures |c| <= |items|
    ensures forall x | x in c :: Complete(x)
    ensures forall i | 0 <= i < |items| && Complete(WithType(items[i], fallback)) ::
              WithType(items[i], fallback) in c
    decreases |items|
  {
    if items == [] then []
    else
      var f := WithType(items[0], fallback);
      var rest := Canonical(items[1..], fallback);
      assert forall i | 1 <= i < |items| :: items[i] == items[1..][i - 1];
      (if Complete(f) then [f] else []) + rest
  }

  lemma {:induction false} CanonicalAppend(p: seq<Record>, s: seq<Record>, fallback: string)
    ensures Canonical(p + s, fallback) == Canonical(p, fallback) + Canonical(s, fallback)
    decreases |p|
  {
    if p == [] {
      assert p + s == s;
    } else {
      var f := WithType(p[0], fallback);
      var h := if Complete(f) then [f] else [];
      assert (p + s)[0] == p[0];
      assert (p + s)[1..] == p[1..] + s;
      CanonicalAppend(p[1..], s, fallback);
      var a, b := Canonical(p[1..], fallback), Canonical(s, fallback);
      assert Canonical(p + s, fallback) == h + (a + b);
      assert h + (a + b) == (h + a) + b;
    }
  }

  /** A collection already typed and complete is its own canonical form. */
  lemma {:induction false} CanonicalOfCanonical(items: seq<Record>, fallback: string)
    requires forall i | 0 <= i < |items| :: Complete(items[i])
    ensures Canonical(items, fallback) == items
    decreases |items|
  {
    if items != [] {
      CanonicalOfCanonical(items[1..], fallback);
    }
  }

  /** Every record in the canonical form comes from the collection, with its
      course and title unchanged. */
  lemma {:induction false} CanonicalFrom(items: seq<Record>, fallback: string, x: Record)
    requires x in Canonical(items, fallback)
    ensures exists i | 0 <= i < |items| :: x == WithType(items[i], fallback)
    decreases |items|
  {
    var f := WithType(items[0], fallback);
    if Complete(f) && x == f {
      assert x == WithType(items[0], fallback);
    } else {
      CanonicalFrom(items[1..], fallback, x);
      var i :| 0 <= i < |items[1..]| && x == WithType(items[1..][i], fallback);
      assert x == WithType(items[i + 1], fallback);
    }
  }

  /** The keys `seedSeenKeys` collects from one collection. */
  function CompleteKeys(items: seq<Record>, fallback: string): set<string> {
    FirstWins.KeySet(Canonical(items, fallback), RecordKey)
  }

  /** `dedupeCollection(items, fallbackType)`: the first complete record for
      each key, typed, in first-occurrence order. */
  function Dedupe(items: seq<Record>, fallback: string): (d: seq<Record>)
    ensures FirstWins.DistinctKeys(d, RecordKey)
    ensures forall i | 0 <= i < |d| :: Complete(d[i])
    ensures FirstWins.KeySet(d, RecordKey) == CompleteKeys(items, fallback)
  {
    var c := Canonical(items, fallback);
    FirstWins.KeepFirstAfterSubset(c, RecordKey, {});
    var d := FirstWins.KeepFirst(c, RecordKey);
    assert forall i | 0 <= i < |d| :: d[i] in c;
    d
  }

  /** First write wins across a boundary: deduplicating `p + s` keeps the
      deduplicated `p` untouched in front, and a record of `s` survives only if
      its key is new to `p`. */
  lemma DedupeAppend(p: seq<Record>, s: seq<Record>, fallback: string)
    ensures Dedupe(p + s, fallback)
         == Dedupe(p, fallback) + FirstWins.KeepFirstAfter(Canonical(s, fallback), RecordKey, CompleteKeys(p, fallback))
  {
    CanonicalAppend(p, s, fallback);
    FirstWins.KeepFirstAfterAppend(Canonical(p, fallback), Canonical(s, fallback), RecordKey, {});
    assert {} + CompleteKeys(p, fallback) == CompleteKeys(p, fallback);
  }

  /** The dedupe pass agrees with the definition from the back: a record is
      kept exactly when no earlier complete record carries its key. */
  lemma DedupeByPrefix(items: seq<Record>, fallback: string)
    ensures Dedupe(items, fallback) == FirstWins.FirstsByPrefix(Canonical(items, fallback), RecordKey)
  {
    FirstWins.KeepFirstIsFirstsByPrefix(Canonical(items, fallback), RecordKey);
  }

  /** Running the dedupe pass over its own output changes nothing. */
  lemma DedupeIdempotent(items: seq<Record>, fallback: string)
    ensures Dedupe(Dedupe(items, fallback), fallback) == Dedupe(items, fallback)
  {
    var d := Dedupe(items, fallback);
    CanonicalOfCanonical(d, fallback);
    FirstWins.KeepFirstAfterFresh(d, RecordKey, {});
  }

  /** Two different (type, course, title) triples can share one key when a
      course name or a title contains `|`; the dedupe pass then keeps only the
      first of two distinct assignments. */
  lemma KeyCollision()
    ensures var a := Record("assignment", "a|b", "c", "", NoDetail);
            var b := Record("assignment", "a", "b|c", "", NoDetail);
            && (a.course, a.title) != (b.course, b.title)
            && Complete(a) && Complete(b)
            && Dedupe([a, b], "assignment") == [a]
  {
    var a := Record("assignment", "a|b", "c", "", NoDetail);
    var b := Record("assignment", "a", "b|c", "", NoDetail);
    assert RecordKey(a) == RecordKey(b);
    assert Canonical([a, b], "assignment") == [a, b] by {
      CanonicalOfCanonical([a, b], "assignment");
    }
  }

  /** No two entries of a course list are equal (a JavaScript `Set`). */
  ghost predicate Distinct(s: seq<string>) {
    forall i, j | 0 <= i < j < |s| :: s[i] != s[j]
  }

  /** `set.add(x)` on an insertion-ordered set. */
  function Insert(s: seq<string>, x: string): (r: seq<string>)
    ensures s <= r
    ensures x in r
    ensures forall y | y in r :: y in s || y == x
    ensures Distinct(s) ==> Distinct(r)
  {
    if x in s then s else s + [x]
  }

  /** Adding every name of `xs`, in order. */
  function InsertAll(s: seq<string>, xs: seq<string>): (r: seq<string>)
    ensures s <= r
    ensures forall y | y in xs :: y in r
    ensures forall y | y in r :: y in s || y in xs
    ensures Distinct(s) ==> Distinct(r)
    decreases |xs|
  {
    if xs == [] then s
    else
      var r := InsertAll(Insert(s, xs[0]), xs[1..]);
      assert forall y | y in xs :: y == xs[0] || y in xs[1..];
      r
  }

  /** Adding names the set already holds changes nothing. */
  lemma {:induction false} InsertAllPresent(s: seq<string>, xs: seq<string>)
    requires forall y | y in xs :: y in s
    ensures InsertAll(s, xs) == s
    decreases |xs|
  {
    if xs != [] {
      InsertAllPresent(s, xs[1..]);
    }
  }

  /** Everything in a prefix is in the whole. */
  lemma PrefixKeeps(s: seq<string>, r: seq<string>)
    requires s <= r
    ensures forall y | y in s :: y in r
  {
    forall y | y in s ensures y in r {
      var i :| 0 <= i < |s| && s[i] == y;
      assert r[i] == y;
    }
  }

  /** Adding names that are all new, and new to each other, appends them in
      order. */
  lemma {:induction false} InsertAllFresh(s: seq<string>, xs: seq<string>)
    requires Distinct(s + xs)
    ensures InsertAll(s, xs) == s + xs
    decreases |xs|
  {
    if xs != [] {
      var x := xs[0];
      assert (s + xs)[|s|] == x;
      assert x !in s by {
        forall i | 0 <= i < |s| ensures s[i] != x {
          assert (s + xs)[i] == s[i];
        }
      }
      assert (s + [x]) + xs[1..] == s + xs;
      InsertAllFresh(s + [x], xs[1..]);
    }
  }

  /** The courses named by a sequence of records. */
  function CoursesOf(rs: seq<Record>): (cs: seq<string>)
    ensures |cs| == |rs|
    ensures forall i | 0 <= i < |rs| :: cs[i] == rs[i].course
  {
    seq(|rs|, i requires 0 <= i < |rs| => rs[i].course)
  }

  /** The `CLEAR_DATA` snapshot: every collection empty, no timestamp. */
  const Cleared: Snapshot := Snapshot([], [], [], [], None)
}
