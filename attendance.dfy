/** The attendance page: rows built from the fetched records, the search box
    that narrows them, and the statistics shown over what the search keeps.
    Every update replaces a whole value, so the page is modelled by functions. */
module Attendance {
  import opened Wrappers
  import Text
  import Seqs

  /** A record as the page receives it in JSON; `userId` and `name` may be absent. */
  datatype JsonRecord = JsonRecord(userId: Option<string>, name: Option<string>, timestamp: string, confidence: real)

  /** A table row: the record's own fields, plus `id` and `recordTime`. */
  datatype Row = Row(record: JsonRecord, id: nat, recordTime: int)

  /** `data.map((record, index) => ({...record, id: index, recordTime: new Date(record.timestamp)}))`,
      with `time` standing for the parse of a timestamp. */
  function WithIds(data: seq<JsonRecord>, time: string -> int): (r: seq<Row>)
    ensures |r| == |data|
    ensures forall i :: 0 <= i < |data| ==> r[i].record == data[i] && r[i].id == i
    ensures forall i :: 0 <= i < |data| ==> r[i].recordTime == time(data[i].timestamp)
  {
    seq(|data|, i requires 0 <= i < |data| => Row(data[i], i, time(data[i].timestamp)))
  }

  /** The fetched records as the rows carry them. */
  function Records(rows: seq<Row>): (r: seq<JsonRecord>)
    ensures |r| == |rows|
    ensures forall i :: 0 <= i < |rows| ==> r[i] == rows[i].record
  {
    seq(|rows|, i requires 0 <= i < |rows| => rows[i].record)
  }

  /** Building rows loses nothing: stripping them gives back the fetched records,
      and row ids are pairwise different. */
  lemma WithIdsRoundTrip(data: seq<JsonRecord>, time: string -> int)
    ensures Records(WithIds(data, time)) == data
    ensures forall i, j :: 0 <= i < j < |data| ==> WithIds(data, time)[i].id != WithIds(data, time)[j].id
  {
  }

  /** `field?.toLowerCase().includes(term)`: an absent field never matches. */
  predicate FieldMatches(field: Option<string>, term: string) {
    field.Some? && Text.Contains(Text.Lower(field.value), term)
  }

  /** The search test, against an already lower-cased term. */
  function Matches(term: string): Row -> bool {
    (row: Row) => FieldMatches(row.record.userId, term) || FieldMatches(row.record.name, term)
  }

  /** The search effect: a term that is blank once trimmed shows every row;
      otherwise the rows whose lower-cased `userId` or `name` contains the
      lower-cased, untrimmed term, in their original order. */
  function Search(records: seq<Row>, searchTerm: string): (r: seq<Row>)
    ensures Text.Trim(searchTerm) == [] ==> r == records
    ensures Text.Trim(searchTerm) != [] ==> forall row ::
      row in r <==> row in records && (FieldMatches(row.record.userId, Text.Lower(searchTerm)) ||
                                       FieldMatches(row.record.name, Text.Lower(searchTerm)))
  {
    if Text.Trim(searchTerm) == [] then records
    else Seqs.Filter(records, Matches(Text.Lower(searchTerm)))
  }

  /** The kept rows sit in the table at increasing positions, and a row is kept
      exactly when it matches. */
  lemma SearchOrder(records: seq<Row>, searchTerm: string) returns (idx: seq<nat>)
    requires Text.Trim(searchTerm) != []
    ensures Seqs.Embedding(Search(records, searchTerm), records, idx)
    ensures forall i :: 0 <= i < |records| ==> (i in idx <==> Matches(Text.Lower(searchTerm))(records[i]))
  {
    idx := Seqs.FilterOrder(records, Matches(Text.Lower(searchTerm)));
  }

  /** A row lacking both `userId` and `name` is never found by a non-blank search. */
  lemma MissingFieldsNeverMatch(records: seq<Row>, searchTerm: string, row: Row)
    requires Text.Trim(searchTerm) != []
    requires row.record.userId.None? && row.record.name.None?
    ensures row !in Search(records, searchTerm)
  {
  }

  /** Lower-casing keeps whether a character is white space. */
  lemma LowerKeepsSpace(c: char)
    ensures Text.IsSpace(Text.LowerChar(c)) <==> Text.IsSpace(c)
  {
  }

  /** The search ignores the case of the term. */
  lemma SearchIgnoresCase(records: seq<Row>, searchTerm: string)
    ensures Search(records, Text.Lower(searchTerm)) == Search(records, searchTerm)
  {
    var l := Text.Lower(searchTerm);
    Text.LowerIdempotent(searchTerm);
    Text.TrimEmptyIffBlank(searchTerm);
    Text.TrimEmptyIffBlank(l);
    forall i | 0 <= i < |searchTerm| ensures Text.IsSpace(l[i]) <==> Text.IsSpace(searchTerm[i]) {
      LowerKeepsSpace(searchTerm[i]);
    }
  }

  /** Searching the search result again with the same term changes nothing. */
  lemma SearchIdempotent(records: seq<Row>, searchTerm: string)
    ensures Search(Search(records, searchTerm), searchTerm) == Search(records, searchTerm)
  {
    if Text.Trim(searchTerm) != [] {
      Seqs.FilterIdempotent(records, Matches(Text.Lower(searchTerm)));
    }
  }

  datatype Stats = Stats(totalRecords: nat, uniqueUsers: nat, todayRecords: nat)

  /** `totalRecords`, `uniqueUsers` (absent ids count as one value, as in a `Set`)
      and `todayRecords`, all over the filtered rows; `todayStart` is the page's midnight. */
  function Statistics(filtered: seq<Row>, todayStart: int, time: string -> int): (r: Stats)
    ensures r.totalRecords == |filtered|
    ensures r.uniqueUsers <= r.totalRecords && r.todayRecords <= r.totalRecords
    ensures r.uniqueUsers == 0 <==> filtered == []
  {
    var unique := Seqs.Distinct(filtered, (row: Row) => row.record.userId);
    Seqs.DistinctAtMost(filtered, (row: Row) => row.record.userId);
    assert filtered != [] ==> filtered[0].record.userId in unique;
    Stats(|filtered|, |unique|,
          |Seqs.Filter(filtered, (row: Row) => time(row.record.timestamp) >= todayStart)|)
  }

  /** The statistics never count more than the rows the search kept, and a
      blank search shows the statistics of the whole table. */
  lemma StatisticsOfSearch(records: seq<Row>, searchTerm: string, todayStart: int, time: string -> int)
    ensures var s := Statistics(Search(records, searchTerm), todayStart, time);
      s.totalRecords <= |records| && s.uniqueUsers <= |records| && s.todayRecords <= |records|
    ensures Text.Trim(searchTerm) == [] ==>
      Statistics(Search(records, searchTerm), todayStart, time) == Statistics(records, todayStart, time)
  {
  }
}
