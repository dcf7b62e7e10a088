/** The episode ledger of a project and its mechanical backfill from derived files. */
module EpisodeLedger {
  import opened Options
  import opened SourceText

  type RelPath = string

  datatype SourceDoc = SourceDoc(rel: RelPath, text: string)

  /** Candidate source files in file-name order: distinct paths, texts already normalised. */
  predicate IsSources(docs: seq<SourceDoc>) {
    && (forall i, j :: 0 <= i < j < |docs| ==> docs[i].rel != docs[j].rel)
    && (forall i :: 0 <= i < |docs| ==> '\r' !in docs[i].text)
  }

  type Sources = docs: seq<SourceDoc> | IsSources(docs) witness []

  datatype Range = Range(file: RelPath, start: int, end: int)

  datatype Status = Planned | Consumed | Stale | Unanchored

  /** An item of `episodes`. A number that does not parse, a range of the wrong shape and a
  missing status are all `None`. */
  datatype Entry = Entry(num: Option<int>, title: string, hook: string, range: Option<Range>, status: Option<Status>)

  datatype Pos = Pos(file: RelPath, offset: int)

  /** A project: the ledger fields of project.json, the derived files `episode_N.txt` by number,
  and the text of `_remaining.txt`. */
  datatype Project = Project(episodes: seq<Entry>, cursor: Option<Pos>, files: map<int, string>,
      remaining: Option<string>)

  /** The project's surroundings: its sources and the episodes that have downstream products. */
  datatype Env = Env(docs: Sources, downstream: set<int>)

  // ---------------------------------------------------------------- sources

  function IndexOf(docs: seq<SourceDoc>, rel: RelPath): (r: Option<nat>)
    ensures r.Some? ==> r.value < |docs| && docs[r.value].rel == rel
    ensures r.None? ==> forall i :: 0 <= i < |docs| ==> docs[i].rel != rel
  {
    if docs == [] then None
    else if docs[0].rel == rel then Some(0)
    else match IndexOf(docs[1..], rel) case None => None case Some(i) => Some(i + 1)
  }

  lemma IndexOfAt(docs: Sources, i: nat)
    requires i < |docs|
    ensures IndexOf(docs, docs[i].rel) == Some(i)
  {
  }

  // ---------------------------------------------------------------- stable sorting

  /** Insert after every element whose key is not larger. */
  function Insert<T>(s: seq<T>, e: T, key: T -> int): (r: seq<T>)
    ensures |r| == |s| + 1
  {
    if s == [] || key(s[|s| - 1]) <= key(e) then s + [e]
    else Insert(s[..|s| - 1], e, key) + [s[|s| - 1]]
  }

  /** `list.sort(key=...)`, which is stable. */
  function Sort<T>(s: seq<T>, key: T -> int): (r: seq<T>)
    ensures |r| == |s|
  {
    if s == [] then [] else Insert(Sort(s[..|s| - 1], key), s[|s| - 1], key)
  }

  predicate Sorted<T>(s: seq<T>, key: T -> int) {
    forall i, j :: 0 <= i < j < |s| ==> key(s[i]) <= key(s[j])
  }

  predicate Distinct<T(==)>(s: seq<T>) {
    forall i, j :: 0 <= i < j < |s| ==> s[i] != s[j]
  }

  lemma {:induction false} InsertMembers<T>(s: seq<T>, e: T, key: T -> int)
    ensures multiset(Insert(s, e, key)) == multiset(s) + multiset{e}
    ensures forall x :: x in Insert(s, e, key) <==> x in s || x == e
  {
    if s == [] || key(s[|s| - 1]) <= key(e) {
    } else {
      assert s == s[..|s| - 1] + [s[|s| - 1]];
      InsertMembers(s[..|s| - 1], e, key);
    }
  }

  lemma {:induction false} InsertSorted<T>(s: seq<T>, e: T, key: T -> int)
    requires Sorted(s, key)
    ensures Sorted(Insert(s, e, key), key)
  {
    if s == [] || key(s[|s| - 1]) <= key(e) {
    } else {
      var init, last := s[..|s| - 1], s[|s| - 1];
      InsertSorted(init, e, key);
      InsertBounded(init, e, key, key(last));
    }
  }

  lemma {:induction false} InsertBounded<T>(s: seq<T>, e: T, key: T -> int, bound: int)
    requires key(e) <= bound && forall i :: 0 <= i < |s| ==> key(s[i]) <= bound
    ensures forall i :: 0 <= i < |s| + 1 ==> key(Insert(s, e, key)[i]) <= bound
  {
    if s == [] || key(s[|s| - 1]) <= key(e) {
    } else {
      InsertBounded(s[..|s| - 1], e, key, bound);
    }
  }

  lemma {:induction false} InsertDistinct<T>(s: seq<T>, e: T, key: T -> int)
    requires Distinct(s) && e !in s
    ensures Distinct(Insert(s, e, key))
  {
    if s == [] || key(s[|s| - 1]) <= key(e) {
    } else {
      var init, last := s[..|s| - 1], s[|s| - 1];
      InsertDistinct(init, e, key);
      InsertMembers(init, e, key);
      assert last !in init;
      assert last !in Insert(init, e, key);
    }
  }

  lemma {:induction false} SortSorted<T>(s: seq<T>, key: T -> int)
    ensures Sorted(Sort(s, key), key)
    ensures forall x :: x in Sort(s, key) <==> x in s
    ensures multiset(Sort(s, key)) == multiset(s)
    ensures Distinct(s) ==> Distinct(Sort(s, key))
  {
    if s != [] {
      var init, last := s[..|s| - 1], s[|s| - 1];
      assert s == init + [last];
      SortSorted(init, key);
      InsertSorted(Sort(init, key), last, key);
      InsertMembers(Sort(init, key), last, key);
      if Distinct(s) {
        assert last !in init;
        InsertDistinct(Sort(init, key), last, key);
      }
    }
  }

  lemma {:induction false} SortFixes<T>(s: seq<T>, key: T -> int)
    requires Sorted(s, key)
    ensures Sort(s, key) == s
  {
    if s != [] {
      var init, last := s[..|s| - 1], s[|s| - 1];
      assert s == init + [last];
      assert init != [] ==> init[|init| - 1] == s[|s| - 2];
      hide Insert;
      SortFixes(init, key);
      InsertAtEnd(init, last, key);
    }
  }

  lemma InsertAtEnd<T>(s: seq<T>, e: T, key: T -> int)
    requires s == [] || key(s[|s| - 1]) <= key(e)
    ensures Insert(s, e, key) == s + [e]
  {
  }

  /** `sorted(s)` for a set of numbers. */
  function SortedSet(s: set<int>): (r: seq<int>)
    ensures forall x :: x in r <==> x in s
    ensures forall i, j :: 0 <= i < j < |r| ==> r[i] < r[j]
  {
    if s == {} then [] else [Least(s)] + SortedSet(s - {Least(s)})
  }

  function Least(s: set<int>): (m: int)
    requires s != {}
    ensures m in s && forall x :: x in s ==> m <= x
  {
    assert exists m :: m in s && forall x :: x in s ==> m <= x by {
      var m := LeastExists(s);
    }
    var m :| m in s && forall x :: x in s ==> m <= x;
    m
  }

  lemma {:induction false} LeastExists(s: set<int>) returns (m: int)
    requires s != {}
    ensures m in s && forall x :: x in s ==> m <= x
    decreases s
  {
    if forall x :: x !in s {
      assert false;
    }
    m :| m in s;
    var below := set x | x in s && x < m;
    if below != {} {
      assert m in s && m !in below;
      m := LeastExists(below);
    }
    forall x | x in s ensures m <= x {
      assert x in below || x !in below;
    }
  }

  // ---------------------------------------------------------------- entries by number

  function NumKey(e: Entry): int {
    if e.num.Some? then e.num.value else 0
  }

  predicate AllNumbered(eps: seq<Entry>) {
    forall i :: 0 <= i < |eps| ==> eps[i].num.Some?
  }

  /** `_sort_episodes_if_possible` */
  function SortIfPossible(eps: seq<Entry>): seq<Entry> {
    if AllNumbered(eps) then Sort(eps, NumKey) else eps
  }

  lemma SortIfPossibleMembers(eps: seq<Entry>)
    ensures forall e :: e in SortIfPossible(eps) <==> e in eps
  {
    hide Sort;
    SortSorted(eps, NumKey);
  }

  /** The entry at `i` is the first with its number: only that one takes part in backfill. */
  predicate FirstSeen(eps: seq<Entry>, i: int) {
    0 <= i < |eps| && eps[i].num.Some? && forall j :: 0 <= j < i ==> eps[j].num != eps[i].num
  }

  function Numbers(eps: seq<Entry>): set<int> {
    set i | 0 <= i < |eps| && eps[i].num.Some? :: eps[i].num.value
  }

  function PairKey(p: (int, nat)): int {
    p.0
  }

  /** The first-seen entries as (number, index), in list order. */
  function FirstSeenPairs(eps: seq<Entry>, n: nat): (r: seq<(int, nat)>)
    requires n <= |eps|
    ensures forall p :: p in r <==> p.1 < n && FirstSeen(eps, p.1) && eps[p.1].num == Some(p.0)
    ensures Distinct(r)
  {
    if n == 0 then []
    else FirstSeenPairs(eps, n - 1) + if FirstSeen(eps, n - 1) then [(eps[n - 1].num.value, n - 1)] else []
  }

  /** The order in which backfill visits entries: first-seen ones by number. */
  function VisitOrder(eps: seq<Entry>): seq<(int, nat)> {
    Sort(FirstSeenPairs(eps, |eps|), PairKey)
  }

  lemma VisitOrderMembers(eps: seq<Entry>)
    ensures forall p :: p in VisitOrder(eps) <==> FirstSeen(eps, p.1) && eps[p.1].num == Some(p.0)
    ensures Sorted(VisitOrder(eps), PairKey) && Distinct(VisitOrder(eps))
  {
    SortSorted(FirstSeenPairs(eps, |eps|), PairKey);
  }

  // ---------------------------------------------------------------- searching the sources

  datatype Hit = Hit(doc: nat, start: nat)

  /** The search order: the preferred document first, then the others in file order. */
  function SearchOrder(n: nat, preferred: Option<nat>): (r: seq<nat>)
    requires preferred.Some? ==> preferred.value < n
    ensures forall d: nat :: d in r <==> d < n
  {
    match preferred
    case None => Without(n, n)
    case Some(p) => [p] + Without(n, p)
  }

  /** The numbers below `n` other than `p`, in order. */
  function Without(n: nat, p: nat): (r: seq<nat>)
    ensures forall d: nat :: d in r <==> d < n && d != p
  {
    if n == 0 then []
    else if n - 1 == p then Without(n - 1, p)
    else Without(n - 1, p) + [n - 1]
  }

  /** The first document in `order` that holds the needle at or after its cursor. */
  function FirstHit(docs: seq<SourceDoc>, cursors: seq<nat>, order: seq<nat>, needle: string): (r: Option<Hit>)
    requires |cursors| == |docs| && forall i :: 0 <= i < |order| ==> order[i] < |docs|
    ensures r.Some? ==> r.value.doc in order && r.value.doc < |docs|
                        && Find(docs[r.value.doc].text, needle, cursors[r.value.doc]) == Some(r.value.start)
    ensures r.None? ==> forall i :: 0 <= i < |order| ==> Find(docs[order[i]].text, needle, cursors[order[i]]).None?
  {
    if order == [] then None
    else match Find(docs[order[0]].text, needle, cursors[order[0]])
      case Some(i) => Some(Hit(order[0], i))
      case None => FirstHit(docs, cursors, order[1..], needle)
  }

  /** `_find_in_sources` as a function: forward of the cursors first, then anywhere. */
  function Found(docs: seq<SourceDoc>, cursors: seq<nat>, needle: string, preferred: Option<nat>): (r: Option<Hit>)
    requires |cursors| == |docs| && (preferred.Some? ==> preferred.value < |docs|)
    ensures r.Some? ==> r.value.doc < |docs| && OccursAt(docs[r.value.doc].text, needle, r.value.start)
  {
    var order := SearchOrder(|docs|, preferred);
    assert forall i :: 0 <= i < |order| ==> order[i] in order;
    var forward := FirstHit(docs, cursors, order, needle);
    if forward.Some? then forward else FirstHit(docs, Zeros(|docs|), order, needle)
  }

  function Zeros(n: nat): seq<nat> {
    seq(n, _ => 0)
  }

  /** A text is reported missing only if it occurs in no source, and every occurrence anywhere
  makes it found. */
  lemma MissingMeansNowhere(docs: seq<SourceDoc>, cursors: seq<nat>, needle: string, preferred: Option<nat>)
    requires |cursors| == |docs| && (preferred.Some? ==> preferred.value < |docs|)
    ensures Found(docs, cursors, needle, preferred).None?
            <==> forall d :: 0 <= d < |docs| ==> !Occurs(docs[d].text, needle)
  {
    var order := SearchOrder(|docs|, preferred);
    assert forall i :: 0 <= i < |order| ==> order[i] in order;
    if Found(docs, cursors, needle, preferred).None? {
      forall d | 0 <= d < |docs| ensures !Occurs(docs[d].text, needle) {
        assert d in order;
        assert Find(docs[d].text, needle, Zeros(|docs|)[d]).None?;
      }
    }
  }

  /** One pass of `_find_in_sources`. */
  method SearchPass(docs: seq<SourceDoc>, cursors: seq<nat>, order: seq<nat>, needle: string) returns (r: Option<Hit>)
    requires |cursors| == |docs| && forall i :: 0 <= i < |order| ==> order[i] < |docs|
    ensures r == FirstHit(docs, cursors, order, needle)
  {
    hide OccursAt, Find;
    ghost var answer := FirstHit(docs, cursors, order, needle);
    assert order[0..] == order;
    for i := 0 to |order|
      invariant answer == FirstHit(docs, cursors, order[i..], needle)
    {
      var doc := order[i];
      assert order[i..][0] == doc && order[i..][1..] == order[i + 1..];
      var found := Find(docs[doc].text, needle, cursors[doc]);
      if found.Some? {
        return Some(Hit(doc, found.value));
      }
    }
    return None;
  }

  /** `_find_in_sources` */
  method FindInSources(docs: seq<SourceDoc>, cursors: seq<nat>, needle: string, preferred: Option<nat>)
    returns (r: Option<Hit>)
    requires |cursors| == |docs| && (preferred.Some? ==> preferred.value < |docs|)
    ensures r == Found(docs, cursors, needle, preferred)
  {
    hide FirstHit, OccursAt;
    var order := SearchOrder(|docs|, preferred);
    assert forall i :: 0 <= i < |order| ==> order[i] in order;
    r := SearchPass(docs, cursors, order, needle);
    if r.None? {
      r := SearchPass(docs, Zeros(|docs|), order, needle);
    }
  }

  // ---------------------------------------------------------------- one entry of the backfill

  /** What the backfill loop carries: the document cursors, the document and position last used. */
  datatype Trail = Trail(cursors: seq<nat>, lastDoc: Option<nat>, lastEnd: Option<Pos>)

  predicate IsTrail(docs: seq<SourceDoc>, t: Trail) {
    |t.cursors| == |docs| && (t.lastDoc.Some? ==> t.lastDoc.value < |docs|)
  }

  function Start(docs: seq<SourceDoc>): (t: Trail)
    ensures IsTrail(docs, t)
  {
    Trail(Zeros(|docs|), None, None)
  }

  /** An entry that already has a status only moves cursors forward. */
  function PassKnown(docs: seq<SourceDoc>, t: Trail, range: Option<Range>): (t': Trail)
    requires IsTrail(docs, t)
    ensures IsTrail(docs, t')
  {
    match range
    case None => t
    case Some(r) =>
      var t := t.(lastEnd := Some(Pos(r.file, r.end)));
      match IndexOf(docs, r.file)
      case None => t
      case Some(d) => t.(cursors := t.cursors[d := if r.end > t.cursors[d] then r.end else t.cursors[d]],
          lastDoc := Some(d))
  }

  /** The text backfill looks for: empty when the file is missing. Only file names with an
  unsigned number are enumerated. */
  function FileText(files: map<int, string>, num: int): string {
    if num in files && num >= 0 then Normalize(files[num]) else ""
  }

  function AnchorFor(env: Env, t: Trail, text: string): (r: Option<Hit>)
    requires IsTrail(env.docs, t)
    ensures r.Some? ==> r.value.doc < |env.docs| && OccursAt(env.docs[r.value.doc].text, text, r.value.start)
  {
    if text == "" then None else Found(env.docs, t.cursors, text, t.lastDoc)
  }

  /** One visited entry: kept if it has a status, else anchored or locked as unanchored. */
  function Visit(env: Env, files: map<int, string>, t: Trail, num: int, e: Entry): (r: (Entry, Trail))
    requires IsTrail(env.docs, t)
    ensures IsTrail(env.docs, r.1)
  {
    if e.status.Some? then (e, PassKnown(env.docs, t, e.range))
    else
      var text := FileText(files, num);
      match AnchorFor(env, t, text)
      case None => (e.(range := None, status := Some(Unanchored)), t)
      case Some(h) =>
        var rel := env.docs[h.doc].rel;
        var end := h.start + |text|;
        (e.(range := Some(Range(rel, h.start, end)),
            status := Some(if num in env.downstream then Consumed else Planned)),
         Trail(t.cursors[h.doc := end], Some(h.doc), Some(Pos(rel, end))))
  }

  /** The body of the backfill loop. */
  method VisitEntry(env: Env, files: map<int, string>, t: Trail, num: int, e: Entry) returns (e': Entry, t': Trail)
    requires IsTrail(env.docs, t)
    ensures (e', t') == Visit(env, files, t, num, e)
  {
    hide OccursAt, Found;
    if e.status.Some? {
      return e, PassKnown(env.docs, t, e.range);
    }
    var text := FileText(files, num);
    var hit: Option<Hit> := None;
    if text != "" {
      hit := FindInSources(env.docs, t.cursors, text, t.lastDoc);
    }
    if hit.None? {
      return e.(range := None, status := Some(Unanchored)), t;
    }
    var doc, start := hit.value.doc, hit.value.start;
    var rel, end := env.docs[doc].rel, start + |text|;
    e' := e.(range := Some(Range(rel, start, end)),
        status := Some(if num in env.downstream then Consumed else Planned));
    t' := Trail(t.cursors[doc := end], Some(doc), Some(Pos(rel, end)));
  }

  // ---------------------------------------------------------------- the whole backfill

  /** `order` names positions of `eps`, each at most once. */
  predicate IsOrder(eps: seq<Entry>, order: seq<(int, nat)>) {
    && Distinct(order)
    && forall i :: 0 <= i < |order| ==> order[i].1 < |eps| && eps[order[i].1].num == Some(order[i].0)
  }

  /** The entries and the trail after visiting the first `k` positions of `order`. */
  function VisitAll(env: Env, files: map<int, string>, eps: seq<Entry>, order: seq<(int, nat)>,
                    k: nat): (r: (seq<Entry>, Trail))
    requires IsOrder(eps, order) && k <= |order|
    ensures |r.0| == |eps| && IsTrail(env.docs, r.1)
  {
    if k == 0 then (eps, Start(env.docs))
    else
      var (eps1, t) := VisitAll(env, files, eps, order, k - 1);
      var (num, i) := order[k - 1];
      var (e, t') := Visit(env, files, t, num, eps[i]);
      (eps1[i := e], t')
  }

  function Orphans(eps: seq<Entry>, files: map<int, string>): set<int> {
    (set n | n in files.Keys && n >= 0) - Numbers(eps)
  }

  function NewEntry(num: int): Entry {
    Entry(Some(num), "", "", None, None)
  }

  function NewEntries(nums: seq<int>): seq<Entry> {
    seq(|nums|, i requires 0 <= i < |nums| => NewEntry(nums[i]))
  }

  /** The entries backfill works on: the given ones, one for each derived file without an entry,
  sorted by number when every number parses. */
  function Listed(eps: seq<Entry>, files: map<int, string>): seq<Entry> {
    SortIfPossible(eps + NewEntries(SortedSet(Orphans(eps, files))))
  }

  predicate Pending(eps: seq<Entry>, order: seq<(int, nat)>)
    requires IsOrder(eps, order)
  {
    exists i :: 0 <= i < |order| && eps[order[i].1].status.None?
  }

  /** `_derive_cursor` */
  function DeriveCursor(docs: seq<SourceDoc>, t: Trail, remaining: Option<string>): Option<Pos>
    requires IsTrail(docs, t)
  {
    var rest := if remaining.Some? then Normalize(remaining.value) else "";
    var found := if rest == "" then None else Found(docs, t.cursors, rest, t.lastDoc);
    if found.Some? && !(t.lastEnd.Some? && docs[found.value.doc].rel == t.lastEnd.value.file
                        && found.value.start < t.lastEnd.value.offset)
    then Some(Pos(docs[found.value.doc].rel, found.value.start))
    else t.lastEnd
  }

  /** `backfill_episode_ledger` */
  function Backfilled(env: Env, p: Project): Project {
    var eps := Listed(p.episodes, p.files);
    var order := VisitOrder(eps);
    VisitOrderIsOrder(eps);
    if !Pending(eps, order) && p.cursor.Some? then p.(episodes := eps)
    else
      var (eps', t) := VisitAll(env, p.files, eps, order, |order|);
      p.(episodes := eps',
         cursor := if p.cursor.Some? then p.cursor else DeriveCursor(env.docs, t, p.remaining))
  }

  lemma VisitOrderIsOrder(eps: seq<Entry>)
    ensures IsOrder(eps, VisitOrder(eps))
  {
    VisitOrderMembers(eps);
    assert forall i :: 0 <= i < |VisitOrder(eps)| ==> VisitOrder(eps)[i] in VisitOrder(eps);
  }

  /** The backfill loop, updating entries and cursors step by step. */
  method BackfillEpisodeLedger(env: Env, p: Project) returns (r: Project)
    ensures r == Backfilled(env, p)
  {
    hide Listed, VisitOrder, Visit, IsTrail, Start, DeriveCursor;
    var eps := Listed(p.episodes, p.files);
    var order := VisitOrder(eps);
    VisitOrderIsOrder(eps);
    var pending := false;
    for i := 0 to |order|
      invariant pending <==> exists k :: 0 <= k < i && eps[order[k].1].status.None?
    {
      if eps[order[i].1].status.None? {
        pending := true;
      }
    }
    if !pending && p.cursor.Some? {
      return p.(episodes := eps);
    }
    var done := eps;
    var t := Start(env.docs);
    for k := 0 to |order|
      invariant (done, t) == VisitAll(env, p.files, eps, order, k)
    {
      var num, i := order[k].0, order[k].1;
      var entry, t' := VisitEntry(env, p.files, t, num, eps[i]);
      done, t := done[i := entry], t';
    }
    return p.(episodes := done,
              cursor := if p.cursor.Some? then p.cursor else DeriveCursor(env.docs, t, p.remaining));
  }
}
