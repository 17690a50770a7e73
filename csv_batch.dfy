/** The batch save of `useCsvUploader.handleSaveClick`: blank prices are coerced to 0,
    rows are grouped by month (`date.substring(0, 7)`) in first-seen order, and the
    groups are submitted one at a time, a rate-limited group being retried after a wait
    and any other failure ending the run. */
module CsvBatch {
  import opened NumberInput
  import Seqs

  /** `EditingTransaction`: a table row whose price box may be empty (`''`). */
  datatype EditingRow = EditingRow(date: string, store: string, price: NumberValue)

  /** `ParsedTransaction`: a row as it is sent to `/save_csv`. */
  datatype Row = Row(date: string, store: string, price: nat)

  /** `{ ...row, price: row.price === '' ? 0 : row.price }`. */
  function Coerce(row: EditingRow): (r: Row)
    ensures r.date == row.date && r.store == row.store
    ensures row.price.Blank? ==> r.price == 0
    ensures row.price.Num? ==> r.price == row.price.n
  {
    Row(row.date, row.store, if row.price.Num? then row.price.n else 0)
  }

  /** `finalData`: every row coerced, in order. */
  function FinalData(rows: seq<EditingRow>): (r: seq<Row>)
    ensures |r| == |rows|
    ensures forall i :: 0 <= i < |rows| ==> r[i] == Coerce(rows[i])
  {
    seq(|rows|, i requires 0 <= i < |rows| => Coerce(rows[i]))
  }

  /** `date.substring(0, 7)`: the first seven characters, or all of a shorter date. */
  function MonthKey(date: string): (k: string)
    ensures |k| <= 7 && k <= date
    ensures |date| >= 7 ==> |k| == 7
  {
    if |date| <= 7 then date else date[..7]
  }

  function KeyOf(row: Row): string {
    MonthKey(row.date)
  }

  /** The month keys in the order they are first met. */
  function FirstSeenKeys(rows: seq<Row>): seq<string> {
    if rows == [] then []
    else
      var keys := FirstSeenKeys(rows[..|rows| - 1]);
      var k := KeyOf(rows[|rows| - 1]);
      if k in keys then keys else keys + [k]
  }

  function InMonth(key: string): Row -> bool {
    row => KeyOf(row) == key
  }

  function NotInMonth(key: string): Row -> bool {
    row => KeyOf(row) != key
  }

  /** `groupedByMonth[key]`: the rows of that month in their original order. */
  function Bucket(rows: seq<Row>, key: string): seq<Row> {
    Seqs.Filter(rows, InMonth(key))
  }

  function Buckets(rows: seq<Row>, keys: seq<string>): (groups: seq<seq<Row>>)
    ensures |groups| == |keys|
    ensures forall j :: 0 <= j < |keys| ==> groups[j] == Bucket(rows, keys[j])
  {
    seq(|keys|, j requires 0 <= j < |keys| => Bucket(rows, keys[j]))
  }

  /** The groups in submission order: `months.map((m) => groupedByMonth[m])`. */
  function MonthGroups(rows: seq<Row>): seq<seq<Row>> {
    Buckets(rows, FirstSeenKeys(rows))
  }

  function Flatten<T>(groups: seq<seq<T>>): seq<T> {
    if groups == [] then [] else groups[0] + Flatten(groups[1..])
  }

  predicate Distinct<T(==)>(s: seq<T>) {
    forall i, j :: 0 <= i < j < |s| ==> s[i] != s[j]
  }

  /** `finalData.forEach(...)` filling `groupedByMonth`; `months` records the order in
      which keys were added to the object, which `Object.keys` returns. */
  method GroupByMonth(rows: seq<Row>) returns (months: seq<string>, grouped: map<string, seq<Row>>)
    ensures months == FirstSeenKeys(rows)
    ensures forall k :: k in grouped <==> k in months
    ensures forall k :: k in grouped ==> grouped[k] == Bucket(rows, k)
  {
    months := [];
    grouped := map[];
    for i := 0 to |rows|
      invariant months == FirstSeenKeys(rows[..i])
      invariant forall k :: k in grouped <==> k in months
      invariant forall k :: k in grouped ==> grouped[k] == Bucket(rows[..i], k)
    {
      var t := rows[i];
      assert rows[..i + 1][..i] == rows[..i];
      ghost var before := grouped;
      var month := MonthKey(t.date);
      if month !in grouped {
        UnseenKeyEmptyBucket(rows[..i], month);
        grouped := grouped[month := []];
        months := months + [month];
      }
      grouped := grouped[month := grouped[month] + [t]];
      forall k | k in grouped ensures grouped[k] == Bucket(rows[..i + 1], k) {
        BucketStep(rows, i, k);
        if k != month {
          assert grouped[k] == before[k];
        }
      }
    }
    assert rows[..|rows|] == rows;
  }

  /** One more row joins the end of its own month's group and no other. */
  lemma {:induction false} BucketStep(rows: seq<Row>, i: nat, key: string)
    requires i < |rows|
    ensures Bucket(rows[..i + 1], key) ==
      Bucket(rows[..i], key) + if KeyOf(rows[i]) == key then [rows[i]] else []
  {
    assert rows[..i + 1][..i] == rows[..i];
  }

  /** A month whose key has not been met has no rows yet. */
  lemma {:induction false} UnseenKeyEmptyBucket(rows: seq<Row>, key: string)
    requires key !in FirstSeenKeys(rows)
    ensures Bucket(rows, key) == []
  {
    FirstSeenKeysExact(rows);
    Seqs.FilterNone(rows, InMonth(key));
  }

  // ---------------------------------------------------------------------------
  // Grouping

  /** The month keys are pairwise different and are exactly the keys of the rows. */
  lemma {:induction false} FirstSeenKeysExact(rows: seq<Row>)
    ensures Distinct(FirstSeenKeys(rows))
    ensures forall i :: 0 <= i < |rows| ==> KeyOf(rows[i]) in FirstSeenKeys(rows)
    ensures forall j :: 0 <= j < |FirstSeenKeys(rows)| ==>
      exists i :: 0 <= i < |rows| && KeyOf(rows[i]) == FirstSeenKeys(rows)[j]
  {
    if rows != [] {
      var p := rows[..|rows| - 1];
      FirstSeenKeysExact(p);
      var keys := FirstSeenKeys(rows);
      forall j | 0 <= j < |keys|
        ensures exists i :: 0 <= i < |rows| && KeyOf(rows[i]) == keys[j]
      {
        if j < |FirstSeenKeys(p)| {
          var i :| 0 <= i < |p| && KeyOf(p[i]) == FirstSeenKeys(p)[j];
          assert rows[i] == p[i];
        } else {
          assert KeyOf(rows[|rows| - 1]) == keys[j];
        }
      }
      forall i | 0 <= i < |rows| ensures KeyOf(rows[i]) in keys {
        if i < |p| {
          assert rows[i] == p[i];
        }
      }
    }
  }

  /** Keys are listed in order of first appearance: the keys of a prefix of the rows
      come first, in the same order, whatever rows follow. */
  lemma {:induction false} FirstSeenKeysPrefix(rows: seq<Row>, n: nat)
    requires n <= |rows|
    ensures FirstSeenKeys(rows[..n]) <= FirstSeenKeys(rows)
    decreases |rows| - n
  {
    if n < |rows| {
      FirstSeenKeysPrefix(rows, n + 1);
      assert rows[..n + 1][..n] == rows[..n];
    } else {
      assert rows[..n] == rows;
    }
  }

  /** Every row lands in exactly one group: the groups together hold each row as often
      as the table does. */
  lemma {:induction false} MonthGroupsPartition(rows: seq<Row>)
    ensures multiset(Flatten(MonthGroups(rows))) == multiset(rows)
  {
    FirstSeenKeysExact(rows);
    BucketsPartition(rows, FirstSeenKeys(rows));
  }

  /** Every group is non-empty and holds only rows of its own month. */
  lemma {:induction false} MonthGroupsHomogeneous(rows: seq<Row>)
    ensures forall j :: 0 <= j < |MonthGroups(rows)| ==> MonthGroups(rows)[j] != []
    ensures forall j, i :: 0 <= j < |MonthGroups(rows)| && 0 <= i < |MonthGroups(rows)[j]| ==>
      KeyOf(MonthGroups(rows)[j][i]) == FirstSeenKeys(rows)[j]
  {
    var keys := FirstSeenKeys(rows);
    var groups := MonthGroups(rows);
    FirstSeenKeysExact(rows);
    forall j | 0 <= j < |groups| ensures groups[j] != []
    {
      var i :| 0 <= i < |rows| && KeyOf(rows[i]) == keys[j];
      Seqs.FilterMembers(rows, InMonth(keys[j]));
      assert rows[i] in groups[j];
    }
    forall j | 0 <= j < |groups|
      ensures forall i :: 0 <= i < |groups[j]| ==> KeyOf(groups[j][i]) == keys[j]
    {
      Seqs.FilterSatisfies(rows, InMonth(keys[j]));
    }
  }

  lemma {:induction false} BucketsPartition(rows: seq<Row>, keys: seq<string>)
    requires Distinct(keys)
    requires forall i :: 0 <= i < |rows| ==> KeyOf(rows[i]) in keys
    ensures multiset(Flatten(Buckets(rows, keys))) == multiset(rows)
    decreases |keys|
  {
    var groups := Buckets(rows, keys);
    if keys == [] {
      assert rows == [];
    } else {
      var k := keys[0];
      var others := keys[1..];
      var rest := Seqs.Filter(rows, NotInMonth(k));
      Seqs.FilterSplit(rows, InMonth(k), NotInMonth(k));
      forall j | 0 <= j < |others| ensures Bucket(rest, others[j]) == Bucket(rows, others[j]) {
        assert others[j] == keys[j + 1];
        Seqs.FilterNarrow(rows, NotInMonth(k), InMonth(others[j]));
      }
      assert groups[1..] == Buckets(rest, others);
      Seqs.FilterSatisfies(rows, NotInMonth(k));
      Seqs.FilterPreserves(rows, NotInMonth(k), (row: Row) => KeyOf(row) in keys);
      forall i | 0 <= i < |rest| ensures KeyOf(rest[i]) in others {
        assert KeyOf(rest[i]) in keys && KeyOf(rest[i]) != k;
      }
      BucketsPartition(rest, others);
    }
  }

  // ---------------------------------------------------------------------------
  // Submission

  /** What `saveCsv` answered one attempt with: success, HTTP 429, or another error. */
  datatype SaveOutcome = Saved | RateLimited | Failed

  /** The attempts of the `while (currentIdx < months.length)` loop: the group index of
      each attempt in order, the final `currentIdx`, whether the loop broke on an error,
      and how many rate-limit waits it made. */
  datatype RunResult = RunResult(sent: seq<nat>, current: nat, aborted: bool, waits: nat)

  /** The loop from `currentIdx == current` over `total` groups, given the answers to the
      coming attempts; the run also stops when the answers run out. */
  function Run(total: nat, current: nat, responses: seq<SaveOutcome>): (r: RunResult)
    requires current <= total
    ensures current <= r.current <= total
    ensures |r.sent| <= |responses|
    ensures r.aborted ==> r.current < total
    decreases |responses|
  {
    if current == total || responses == [] then RunResult([], current, false, 0)
    else
      match responses[0]
      case Saved =>
        var r := Run(total, current + 1, responses[1..]);
        r.(sent := [current] + r.sent)
      case RateLimited =>
        var r := Run(total, current, responses[1..]);
        r.(sent := [current] + r.sent, waits := r.waits + 1)
      case Failed => RunResult([current], current, true, 0)
  }

  function CountSaved(responses: seq<SaveOutcome>): nat {
    if responses == [] then 0
    else CountSaved(responses[..|responses| - 1]) + if responses[|responses| - 1] == Saved then 1 else 0
  }

  /** Groups are sent strictly in order: attempt `j` sends the group `currentIdx` points
      at; a success moves to the next group, a 429 retries the same group, and a failure
      is the last attempt, after which no later group is ever sent. */
  lemma {:induction false} RunInOrder(total: nat, current: nat, responses: seq<SaveOutcome>)
    requires current <= total
    ensures var r := Run(total, current, responses);
      && (r.sent != [] ==> r.sent[0] == current)
      && (forall j :: 0 <= j < |r.sent| - 1 ==>
            (responses[j] == Saved ==> r.sent[j + 1] == r.sent[j] + 1) &&
            (responses[j] == RateLimited ==> r.sent[j + 1] == r.sent[j]) &&
            responses[j] != Failed)
      && (r.aborted <==> r.sent != [] && responses[|r.sent| - 1] == Failed)
      && (r.aborted ==> r.current == r.sent[|r.sent| - 1])
    decreases |responses|
  {
    if current < total && responses != [] && responses[0] != Failed {
      var next := if responses[0] == Saved then current + 1 else current;
      RunInOrder(total, next, responses[1..]);
    }
  }

  /** `progress.current` counts the successful attempts, never more than the groups. */
  lemma {:induction false} RunCountsSuccesses(total: nat, current: nat, responses: seq<SaveOutcome>)
    requires current <= total
    ensures var r := Run(total, current, responses);
      r.current == current + CountSaved(responses[..|r.sent|]) && r.current <= total
    decreases |responses|
  {
    var r := Run(total, current, responses);
    if current < total && responses != [] && responses[0] != Failed {
      var next := if responses[0] == Saved then current + 1 else current;
      RunCountsSuccesses(total, next, responses[1..]);
      CountSavedCons(responses[0], responses[1..][..|r.sent| - 1]);
      assert responses[..|r.sent|] == [responses[0]] + responses[1..][..|r.sent| - 1];
    } else if current < total && responses != [] {
      assert responses[..1] == [responses[0]];
      assert responses[..1][..0] == [];
    }
  }

  lemma {:induction false} CountSavedCons(x: SaveOutcome, s: seq<SaveOutcome>)
    ensures CountSaved([x] + s) == (if x == Saved then 1 else 0) + CountSaved(s)
    decreases |s|
  {
    if s != [] {
      var p := s[..|s| - 1];
      CountSavedCons(x, p);
      assert ([x] + s)[..|s|] == [x] + p;
    } else {
      assert [x] + s == [x];
      assert [x][..0] == [];
    }
  }

  /** With as many successes as groups and no other answer, every group is sent once, in
      order, and the run completes. */
  lemma {:induction false} RunAllSaved(total: nat, current: nat, responses: seq<SaveOutcome>)
    requires current <= total
    requires |responses| >= total - current
    requires forall j :: 0 <= j < |responses| ==> responses[j] == Saved
    ensures var r := Run(total, current, responses);
      && r.current == total && !r.aborted && r.waits == 0
      && |r.sent| == total - current
      && forall j :: 0 <= j < |r.sent| ==> r.sent[j] == current + j
    decreases total - current
  {
    if current < total {
      RunAllSaved(total, current + 1, responses[1..]);
    }
  }

  /** A 429 costs one wait and changes nothing else: the run continues as if the answer
      had not been given. */
  lemma {:induction false} RunRetry(total: nat, current: nat, responses: seq<SaveOutcome>)
    requires current < total
    ensures var r := Run(total, current, [RateLimited] + responses);
      var s := Run(total, current, responses);
      r.current == s.current && r.aborted == s.aborted && r.waits == s.waits + 1
      && r.sent == [current] + s.sent
  {
    assert ([RateLimited] + responses)[1..] == responses;
  }

  /** The part of a run already carried out (`done` attempts, `waits` pauses) followed by
      the run that remains. */
  function Resume(done: seq<nat>, waits: nat, rest: RunResult): RunResult {
    rest.(sent := done + rest.sent, waits := waits + rest.waits)
  }

  /** One more attempt that does not fail moves the split point of a run forward by one:
      the attempt joins the part carried out and the remaining run starts one answer later. */
  lemma {:induction false} RunAdvance(total: nat, responses: seq<SaveOutcome>, done: seq<nat>, waits: nat,
                                      current: nat, attempt: nat)
    requires current < total && attempt < |responses| && responses[attempt] != Failed
    requires Run(total, 0, responses) == Resume(done, waits, Run(total, current, responses[attempt..]))
    ensures var next := if responses[attempt] == Saved then current + 1 else current;
      && next <= total
      && Run(total, 0, responses) ==
           Resume(done + [current], if responses[attempt] == RateLimited then waits + 1 else waits,
                  Run(total, next, responses[attempt + 1..]))
  {
    var next := if responses[attempt] == Saved then current + 1 else current;
    assert responses[attempt..][1..] == responses[attempt + 1..];
    var t := Run(total, next, responses[attempt + 1..]);
    assert done + ([current] + t.sent) == done + [current] + t.sent;
  }

  /** Once every group is saved or the answers run out, the run ends where it stands. */
  lemma {:induction false} RunDone(total: nat, responses: seq<SaveOutcome>, done: seq<nat>, waits: nat,
                                   current: nat, attempt: nat)
    requires current <= total && attempt <= |responses|
    requires current == total || attempt == |responses|
    requires Run(total, 0, responses) == Resume(done, waits, Run(total, current, responses[attempt..]))
    ensures Run(total, 0, responses) == RunResult(done, current, false, waits)
  {
    assert Run(total, current, responses[attempt..]) == RunResult([], current, false, 0);
    assert done + [] == done;
  }

  /** A failing attempt ends the run where it stands. */
  lemma {:induction false} RunStopsAtFailure(total: nat, responses: seq<SaveOutcome>, done: seq<nat>, waits: nat,
                                             current: nat, attempt: nat)
    requires current < total && attempt < |responses| && responses[attempt] == Failed
    requires Run(total, 0, responses) == Resume(done, waits, Run(total, current, responses[attempt..]))
    ensures Run(total, 0, responses) == RunResult(done + [current], current, true, waits)
  {
  }
}
