/** The dashboard page's aggregations over the attendance records it fetched:
    today's records, the last-seven-days bar chart, the per-user doughnut chart
    (top five attendees) and the headline statistics. A record's time is
    `time(record.timestamp)`, the millisecond value of `new Date(timestamp)`;
    midnights are given as values. */
module Dashboard {
  import opened Wrappers
  import Seqs
  import Dicts
  import App

  type Record = App.AttendanceRecord

  /** An entry of `Object.entries(userAttendanceCounts)`: a user id and its count. */
  type Entry = (string, int)

  const DayMs: int := 24 * 60 * 60 * 1000
  const DaysShown: nat := 7
  const TopCount: nat := 5

  function Min(a: nat, b: nat): nat {
    if a <= b then a else b
  }

  // ---------------------------------------------------------------- today

  /** `getTodayAttendance`: the records dated at or after today's midnight. */
  function TodayAttendance(records: seq<Record>, today: int, time: string -> int): (r: seq<Record>)
    ensures |r| <= |records|
    ensures forall x :: x in r <==> x in records && time(x.timestamp) >= today
  {
    Seqs.Filter(records, (x: Record) => time(x.timestamp) >= today)
  }

  /** How often a record occurs among today's records, by the page's promise. */
  function Kept(records: seq<Record>, today: int, time: string -> int, x: Record): nat {
    if time(x.timestamp) >= today then multiset(records)[x] else 0
  }

  /** Today's records are exactly the records at or after midnight, each kept as
      often as it occurs, in their original order. */
  lemma TodayAttendanceExact(records: seq<Record>, today: int, time: string -> int) returns (idx: seq<nat>)
    ensures Seqs.Embedding(TodayAttendance(records, today, time), records, idx)
    ensures forall i :: 0 <= i < |records| ==> (i in idx <==> time(records[i].timestamp) >= today)
    ensures forall x :: multiset(TodayAttendance(records, today, time))[x] == Kept(records, today, time, x)
  {
    var p := (x: Record) => time(x.timestamp) >= today;
    idx := Seqs.FilterOrder(records, p);
    forall x ensures multiset(TodayAttendance(records, today, time))[x] == Kept(records, today, time, x) {
      Seqs.FilterCounts(records, p, x);
    }
  }

  // ---------------------------------------------------------------- last seven days

  /** Whether a record falls on the day that starts at `start`. */
  function InDay(start: int, time: string -> int): Record -> bool {
    (x: Record) => start <= time(x.timestamp) < start + DayMs
  }

  /** The number of records dated in `[start, start + 24h)`. */
  function DayCount(records: seq<Record>, start: int, time: string -> int): nat {
    |Seqs.Filter(records, InDay(start, time))|
  }

  /** The bar height counts exactly the positions of records on that day. */
  lemma DayCountPositions(records: seq<Record>, start: int, time: string -> int)
    ensures DayCount(records, start, time) ==
      |set i: nat | i < |records| && start <= time(records[i].timestamp) < start + DayMs|
  {
    Seqs.FilterLength(records, InDay(start, time));
    assert Seqs.Passing(records, InDay(start, time)) ==
      set i: nat | i < |records| && start <= time(records[i].timestamp) < start + DayMs;
  }

  /** `getLast7DaysData`: for `i` from 6 down to 0, the label of the day `i` days
      ago and its record count. `dayStart(i)` is the midnight `i` days before
      today and `dayLabel` is `toLocaleDateString`. */
  method Last7Days(records: seq<Record>, dayStart: nat -> int, dayLabel: int -> string, time: string -> int)
    returns (dates: seq<string>, counts: seq<nat>)
    ensures |dates| == DaysShown && |counts| == DaysShown
    ensures forall k :: 0 <= k < DaysShown ==>
      dates[k] == dayLabel(dayStart(DaysShown - 1 - k)) &&
      counts[k] == DayCount(records, dayStart(DaysShown - 1 - k), time)
  {
    dates := [];
    counts := [];
    var i: int := 6;
    while i >= 0
      invariant -1 <= i <= 6
      invariant |dates| == 6 - i && |counts| == 6 - i
      invariant forall k :: 0 <= k < |dates| ==>
        dates[k] == dayLabel(dayStart(6 - k)) && counts[k] == DayCount(records, dayStart(6 - k), time)
    {
      var date := dayStart(i);
      dates := dates + [dayLabel(date)];
      var count := |Seqs.Filter(records, InDay(date, time))|;
      counts := counts + [count];
      i := i - 1;
    }
  }

  // ---------------------------------------------------------------- per-user counts

  /** The user id of every record, in order. */
  function Ids(records: seq<Record>): (r: seq<string>)
    ensures |r| == |records|
    ensures forall i :: 0 <= i < |records| ==> r[i] == records[i].userId
  {
    seq(|records|, i requires 0 <= i < |records| => records[i].userId)
  }

  /** The number of records carrying a user id. */
  function Occurrences(records: seq<Record>, id: string): nat {
    multiset(Ids(records))[id]
  }

  /** Each value of `s` once, in the order of its first appearance. */
  function FirstAppearances(s: seq<string>): (r: seq<string>)
    ensures forall i, j :: 0 <= i < j < |r| ==> r[i] != r[j]
    ensures forall x :: x in r <==> x in s
  {
    if s == [] then []
    else
      var r := FirstAppearances(s[..|s| - 1]);
      if s[|s| - 1] in r then r else r + [s[|s| - 1]]
  }

  /** The first position of a value in a sequence. */
  function FirstPos(s: seq<string>, x: string): (p: nat)
    requires x in s
    ensures p < |s| && s[p] == x
    ensures forall j :: 0 <= j < p ==> s[j] != x
  {
    if s[0] == x then 0 else 1 + FirstPos(s[1..], x)
  }

  /** A value found before position `n` has the same first position in the prefix. */
  lemma FirstPosPrefix(s: seq<string>, n: nat, x: string)
    requires n <= |s| && x in s[..n]
    ensures x in s && FirstPos(s, x) == FirstPos(s[..n], x) < n
  {
    var q := FirstPos(s[..n], x);
    assert s[q] == x;
    assert forall j :: 0 <= j < q ==> s[j] == s[..n][j];
  }

  /** A value missing from the first `n` positions first appears at `n` or later. */
  lemma FirstPosAfter(s: seq<string>, n: nat, x: string)
    requires n <= |s| && x in s && x !in s[..n]
    ensures FirstPos(s, x) >= n
  {
    assert forall j :: 0 <= j < n ==> s[j] == s[..n][j];
  }

  /** The values are listed in the order in which they first appear. */
  lemma {:induction false} FirstAppearancesOrder(s: seq<string>)
    ensures forall k, l :: 0 <= k < l < |FirstAppearances(s)| ==>
      FirstPos(s, FirstAppearances(s)[k]) < FirstPos(s, FirstAppearances(s)[l])
  {
    if s != [] {
      var n := |s| - 1;
      var pre := s[..n];
      var r := FirstAppearances(pre);
      FirstAppearancesOrder(pre);
      var fa := FirstAppearances(s);
      forall k, l | 0 <= k < l < |fa| ensures FirstPos(s, fa[k]) < FirstPos(s, fa[l]) {
        assert fa[k] == r[k] && r[k] in pre;
        FirstPosPrefix(s, n, r[k]);
        if l < |r| {
          assert fa[l] == r[l] && r[l] in pre;
          FirstPosPrefix(s, n, r[l]);
        } else {
          assert fa[l] == s[n] && s[n] !in pre;
          FirstPosAfter(s, n, s[n]);
        }
      }
    }
  }

  /** The counts dictionary `getUserDistributionData` builds: each user id that
      occurs in the records, in order of first appearance, with its number of records. */
  function Tally(records: seq<Record>): (r: Dicts.Dict<string, int>)
    ensures r.Valid()
    ensures r.keys == FirstAppearances(Ids(records))
    ensures forall id :: id in r.entries <==> Occurrences(records, id) > 0
    ensures forall id :: id in r.entries ==> r.entries[id] == Occurrences(records, id)
  {
    var ids := Ids(records);
    Dicts.Dict(FirstAppearances(ids), map id | id in ids :: multiset(ids)[id])
  }

  /** `counts` holds, for the ids seen so far, exactly what `Tally` would. */
  ghost predicate Counted(counts: Dicts.Dict<string, int>, ids: seq<string>) {
    counts.Valid() &&
    counts.keys == FirstAppearances(ids) &&
    forall id :: id in counts.entries ==> counts.entries[id] == multiset(ids)[id]
  }

  /** Counting one more record keeps `Counted`. */
  lemma CountStep(counts: Dicts.Dict<string, int>, ids: seq<string>, id: string)
    requires Counted(counts, ids)
    ensures id in counts.entries ==> Counted(Dicts.Put(counts, id, counts.entries[id] + 1), ids + [id])
    ensures id !in counts.entries ==> Counted(Dicts.Put(counts, id, 1), ids + [id])
  {
    assert (ids + [id])[..|ids|] == ids;
    assert id in counts.entries <==> id in ids;
  }

  lemma CountedTally(counts: Dicts.Dict<string, int>, records: seq<Record>)
    requires Counted(counts, Ids(records))
    ensures counts == Tally(records)
  {
    assert counts.entries == Tally(records).entries;
  }

  /** The `forEach` that fills `userAttendanceCounts`: a missing (falsy) count
      starts at 1, a present one is incremented. */
  method CountByUser(records: seq<Record>) returns (counts: Dicts.Dict<string, int>)
    ensures counts == Tally(records)
  {
    ghost var ids := Ids(records);
    counts := Dicts.Empty();
    var i := 0;
    while i < |records|
      invariant 0 <= i <= |records|
      invariant Counted(counts, ids[..i])
    {
      var id := records[i].userId;
      assert ids[..i + 1] == ids[..i] + [id];
      CountStep(counts, ids[..i], id);
      if id in counts.entries && counts.entries[id] != 0 {
        counts := Dicts.Put(counts, id, counts.entries[id] + 1);
      } else {
        counts := Dicts.Put(counts, id, 1);
      }
      i := i + 1;
    }
    assert ids[..i] == ids;
    CountedTally(counts, records);
  }

  // ---------------------------------------------------------------- ranking

  /** Counts never increase along the sequence. */
  predicate ByCountDesc(s: seq<Entry>) {
    forall i, j :: 0 <= i < j < |s| ==> s[i].1 >= s[j].1
  }

  /** The entries with a given count. */
  function CountIs(c: int): Entry -> bool {
    (e: Entry) => e.1 == c
  }

  /** Where a stable insertion puts an entry with count `v`: after every
      leading entry whose count is at least `v`. */
  function InsertPos(t: seq<Entry>, v: int): (p: nat)
    ensures p <= |t|
    ensures forall i :: 0 <= i < p ==> t[i].1 >= v
    ensures p < |t| ==> t[p].1 < v
  {
    if t == [] || t[0].1 < v then 0 else 1 + InsertPos(t[1..], v)
  }

  function Insert(t: seq<Entry>, e: Entry): (r: seq<Entry>)
    ensures multiset(r) == multiset(t) + multiset{e}
  {
    var p := InsertPos(t, e.1);
    assert t == t[..p] + t[p..];
    t[..p] + [e] + t[p..]
  }

  /** Behind the insertion point of a sorted sequence every count is below `v`. */
  lemma AfterInsertPos(t: seq<Entry>, v: int, q: nat)
    requires ByCountDesc(t) && InsertPos(t, v) <= q < |t|
    ensures t[q].1 < v
  {
    var p := InsertPos(t, v);
    assert t[p].1 < v;
  }

  lemma InsertSorted(t: seq<Entry>, e: Entry)
    requires ByCountDesc(t)
    ensures ByCountDesc(Insert(t, e))
  {
    var p := InsertPos(t, e.1);
    var r := Insert(t, e);
    forall i, j | 0 <= i < j < |r| ensures r[i].1 >= r[j].1 {
      if j > p {
        AfterInsertPos(t, e.1, j - 1);
      }
    }
  }

  lemma FilterSingle(e: Entry, f: Entry -> bool)
    ensures Seqs.Filter([e], f) == if f(e) then [e] else []
  {
    assert [e][..0] == [];
  }

  /** Nothing with count `c` sits behind the insertion point of a count-`c` entry. */
  lemma FilterBehind(t: seq<Entry>, c: int)
    requires ByCountDesc(t)
    ensures Seqs.Filter(t[InsertPos(t, c)..], CountIs(c)) == []
  {
    var u := t[InsertPos(t, c)..];
    forall x | x in u ensures !CountIs(c)(x) {
      var q :| 0 <= q < |u| && u[q] == x;
      AfterInsertPos(t, c, InsertPos(t, c) + q);
    }
    if Seqs.Filter(u, CountIs(c)) != [] {
      assert Seqs.Filter(u, CountIs(c))[0] in Seqs.Filter(u, CountIs(c));
    }
  }

  /** Inserting keeps the entries of every count in the order they had,
      the new one last among its equals. */
  lemma InsertStable(t: seq<Entry>, e: Entry, c: int)
    requires ByCountDesc(t)
    ensures Seqs.Filter(Insert(t, e), CountIs(c)) ==
      Seqs.Filter(t, CountIs(c)) + (if e.1 == c then [e] else [])
  {
    var p := InsertPos(t, e.1);
    var before, after := t[..p], t[p..];
    assert Insert(t, e) == before + [e] + after;
    assert t == before + after;
    if e.1 == c {
      FilterBehind(t, c);
    }
    Seqs.FilterSplice(before, e, after, CountIs(c));
  }

  /** `Object.entries(counts).sort((a, b) => b[1] - a[1])`: a stable sort by
      decreasing count (the language requires `Array.prototype.sort` to be stable). */
  function SortByCount(s: seq<Entry>): (r: seq<Entry>)
    ensures |r| == |s|
    ensures multiset(r) == multiset(s)
    ensures ByCountDesc(r)
  {
    if s == [] then []
    else
      var t := SortByCount(s[..|s| - 1]);
      InsertSorted(t, s[|s| - 1]);
      assert s == s[..|s| - 1] + [s[|s| - 1]];
      Insert(t, s[|s| - 1])
  }

  /** Entries with equal counts keep their relative order. */
  lemma {:induction false} SortStable(s: seq<Entry>, c: int)
    ensures Seqs.Filter(SortByCount(s), CountIs(c)) == Seqs.Filter(s, CountIs(c))
  {
    if s != [] {
      var n := |s| - 1;
      SortStable(s[..n], c);
      InsertStable(SortByCount(s[..n]), s[n], c);
    }
  }

  /** `.slice(0, 5)` of the ranking. */
  function TopUsers(counts: Dicts.Dict<string, int>): (r: seq<Entry>)
    requires counts.Valid()
    ensures |r| == Min(TopCount, |counts.keys|)
  {
    SortByCount(Dicts.Items(counts))[..Min(TopCount, |counts.keys|)]
  }

  // ---------------------------------------------------------------- labels

  /** `users[i]` is the first user with the given id. */
  predicate FirstUserAt(users: seq<App.UserRef>, id: string, i: int) {
    0 <= i < |users| && users[i].userId == id && forall j :: 0 <= j < i ==> users[j].userId != id
  }

  /** `users.find(u => u.userId === userId)`. */
  function FindUser(users: seq<App.UserRef>, id: string): (r: Option<App.UserRef>)
    ensures r.None? <==> forall i :: 0 <= i < |users| ==> users[i].userId != id
    ensures r.Some? ==> r.value.userId == id && exists i :: FirstUserAt(users, id, i) && users[i] == r.value
  {
    if users == [] then None
    else if users[0].userId == id then Some(users[0])
    else
      var r := FindUser(users[1..], id);
      assert forall i :: 0 < i < |users| ==> users[i] == users[1..][i - 1];
      r
  }

  /** The doughnut label of a user id: the first matching user's name, else the id. */
  function Label(users: seq<App.UserRef>, id: string): string {
    match FindUser(users, id)
    case Some(u) => u.name
    case None => id
  }

  datatype Chart = Chart(labels: seq<string>, data: seq<int>)

  /** `getUserDistributionData`'s result for a counts dictionary. */
  function Distribution(counts: Dicts.Dict<string, int>, users: seq<App.UserRef>): Chart
    requires counts.Valid()
  {
    var top := TopUsers(counts);
    Chart(seq(|top|, k requires 0 <= k < |top| => Label(users, top[k].0)),
          seq(|top|, k requires 0 <= k < |top| => top[k].1))
  }

  /** Every ranked entry is a stored pair of the dictionary. */
  lemma TopStored(counts: Dicts.Dict<string, int>, k: nat)
    requires counts.Valid() && k < |TopUsers(counts)|
    ensures TopUsers(counts)[k].0 in counts.entries
    ensures TopUsers(counts)[k].1 == counts.entries[TopUsers(counts)[k].0]
  {
    var items := Dicts.Items(counts);
    var x := SortByCount(items)[k];
    assert TopUsers(counts)[k] == x;
    assert x in multiset(items);
    var i :| 0 <= i < |items| && items[i] == x;
  }

  /** An element found at two positions occurs at least twice. */
  lemma TwoPositions(s: seq<Entry>, k: nat, l: nat)
    requires k < l < |s| && s[k] == s[l]
    ensures multiset(s)[s[k]] >= 2
  {
    assert s == s[..l] + s[l..];
    assert s[k] in s[..l];
    assert s[l] in s[l..];
  }

  /** No user id is ranked twice. */
  lemma TopDistinct(counts: Dicts.Dict<string, int>, k: nat, l: nat)
    requires counts.Valid() && k < l < |TopUsers(counts)|
    ensures TopUsers(counts)[k].0 != TopUsers(counts)[l].0
  {
    var items := Dicts.Items(counts);
    var sorted := SortByCount(items);
    assert TopUsers(counts)[k] == sorted[k] && TopUsers(counts)[l] == sorted[l];
    TopStored(counts, k);
    TopStored(counts, l);
    if sorted[k].0 == sorted[l].0 {
      TwoPositions(sorted, k, l);
      assert sorted[k] in multiset(items);
      var i :| 0 <= i < |items| && items[i] == sorted[k];
      DistinctItemCount(counts, i);
    }
  }

  /** In a sorted sequence, an entry outside a prefix counts no more than any
      entry of the prefix. */
  lemma BelowPrefix(sorted: seq<Entry>, m: nat, x: Entry, k: nat)
    requires ByCountDesc(sorted) && k < m <= |sorted| && x in sorted && x !in sorted[..m]
    ensures x.1 <= sorted[k].1
  {
    var q :| 0 <= q < |sorted| && sorted[q] == x;
    assert forall i :: 0 <= i < m ==> sorted[..m][i] == sorted[i];
    assert m <= q;
  }

  /** A stored user id left out of the ranking has no more records than any ranked one. */
  lemma TopMaximal(counts: Dicts.Dict<string, int>, id: string, k: nat)
    requires counts.Valid() && id in counts.entries && k < |TopUsers(counts)|
    requires forall l :: 0 <= l < |TopUsers(counts)| ==> TopUsers(counts)[l].0 != id
    ensures counts.entries[id] <= TopUsers(counts)[k].1
  {
    var items := Dicts.Items(counts);
    var sorted := SortByCount(items);
    var top := TopUsers(counts);
    var x := (id, counts.entries[id]);
    assert top == sorted[..|top|];
    Dicts.ItemsComplete(counts, id);
    assert x in multiset(items);
    assert x in sorted;
    assert x !in top;
    BelowPrefix(sorted, |top|, x, k);
  }

  /** The doughnut chart: at most five slices, labels and data index-aligned,
      each slice a distinct user that attended, with that user's record count,
      counts non-increasing, and no attendee left out has more records than a
      shown one. */
  lemma DistributionSpec(records: seq<Record>, users: seq<App.UserRef>) returns (ids: seq<string>)
    ensures |ids| == |Distribution(Tally(records), users).labels| == |Distribution(Tally(records), users).data| <= TopCount
    ensures forall k, l :: 0 <= k < l < |ids| ==> ids[k] != ids[l]
    ensures forall k :: 0 <= k < |ids| ==>
      Occurrences(records, ids[k]) > 0 &&
      Distribution(Tally(records), users).data[k] == Occurrences(records, ids[k]) &&
      Distribution(Tally(records), users).labels[k] == Label(users, ids[k])
    ensures forall k, l :: 0 <= k < l < |ids| ==>
      Distribution(Tally(records), users).data[k] >= Distribution(Tally(records), users).data[l]
    ensures forall id, k :: Occurrences(records, id) > 0 && id !in ids && 0 <= k < |ids| ==>
      Occurrences(records, id) <= Distribution(Tally(records), users).data[k]
  {
    var counts := Tally(records);
    var top := TopUsers(counts);
    ids := seq(|top|, k requires 0 <= k < |top| => top[k].0);
    forall k | 0 <= k < |ids| ensures ids[k] in counts.entries && top[k].1 == counts.entries[ids[k]] {
      TopStored(counts, k);
    }
    forall k, l | 0 <= k < l < |ids| ensures ids[k] != ids[l] {
      TopDistinct(counts, k, l);
    }
    forall k, l | 0 <= k < l < |ids| ensures top[k].1 >= top[l].1 {
      assert top[k] == SortByCount(Dicts.Items(counts))[k];
      assert top[l] == SortByCount(Dicts.Items(counts))[l];
    }
    forall id, k | Occurrences(records, id) > 0 && id !in ids && 0 <= k < |ids|
      ensures Occurrences(records, id) <= top[k].1
    {
      TopMaximal(counts, id, k);
    }
  }

  /** In the items of a dictionary each pair occurs once. */
  lemma DistinctItemCount(d: Dicts.Dict<string, int>, i: nat)
    requires d.Valid() && i < |d.keys|
    ensures multiset(Dicts.Items(d))[Dicts.Items(d)[i]] == 1
  {
    var items := Dicts.Items(d);
    var x := items[i];
    assert items == items[..i] + [x] + items[i + 1..];
    assert x !in items[..i];
    assert x !in items[i + 1..];
  }

  /** `getUserDistributionData`. */
  method UserDistribution(records: seq<Record>, users: seq<App.UserRef>) returns (labels: seq<string>, data: seq<int>)
    ensures Chart(labels, data) == Distribution(Tally(records), users)
  {
    var counts := CountByUser(records);
    var top := SortByCount(Dicts.Items(counts))[..Min(TopCount, |counts.keys|)];
    labels := seq(|top|, k requires 0 <= k < |top| => Label(users, top[k].0));
    data := seq(|top|, k requires 0 <= k < |top| => top[k].1);
  }

  // ---------------------------------------------------------------- statistics

  datatype Stats = Stats(totalUsers: nat, totalRecords: nat, todayRecords: nat, uniqueAttendees: nat)

  /** `totalUsers`, `totalRecords`, `todayRecords` and `uniqueAttendees`. */
  function Statistics(users: seq<App.UserRef>, records: seq<Record>, today: int, time: string -> int): (r: Stats)
    ensures r.totalUsers == |users| && r.totalRecords == |records|
    ensures r.todayRecords <= r.totalRecords
    ensures r.uniqueAttendees <= r.totalRecords
    ensures r.uniqueAttendees == 0 <==> records == []
  {
    var unique := Seqs.Distinct(records, (x: Record) => x.userId);
    Seqs.DistinctAtMost(records, (x: Record) => x.userId);
    assert records != [] ==> records[0].userId in unique;
    Stats(|users|, |records|, |TodayAttendance(records, today, time)|, |unique|)
  }

  /** The number of distinct attendees is the number of slices the counts
      dictionary could offer: one per user id that occurs. */
  lemma UniqueIsTallySize(users: seq<App.UserRef>, records: seq<Record>, today: int, time: string -> int)
    ensures Statistics(users, records, today, time).uniqueAttendees == |Tally(records).keys|
  {
    var keys := Tally(records).keys;
    var unique := Seqs.Distinct(records, (x: Record) => x.userId);
    assert unique == set k | k in keys by {
      forall u | u in unique ensures u in keys {
        var i :| 0 <= i < |records| && records[i].userId == u;
        assert Ids(records)[i] == u;
      }
    }
    DistinctCard(keys);
  }

  /** A sequence without repeats has as many distinct values as elements. */
  lemma {:induction false} DistinctCard(s: seq<string>)
    requires forall i, j :: 0 <= i < j < |s| ==> s[i] != s[j]
    ensures |set x | x in s| == |s|
  {
    if s != [] {
      var n := |s| - 1;
      DistinctCard(s[..n]);
      assert (set x | x in s) == (set x | x in s[..n]) + {s[n]};
      assert s[n] !in s[..n];
    }
  }
}
