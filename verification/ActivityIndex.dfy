/**
 The index of the activity log as plain data: which records a commit keeps and which it drops
 (app/activity_log.py, `_select_kept`), and how one run's output is stored and read back
 (`_write_output`, `get_run_output`).
 */
module ActivityIndex {
  import opened Options

  const MAX_ENTRIES: nat := 500
  const MAX_AGE: int := 90 * 86400

  /** `startedAt` is None when the stored timestamp does not parse. */
  datatype Record = Record(id: nat, startedAt: Option<int>, lineCount: nat)

  function Ids(records: seq<Record>): (ids: set<nat>)
    ensures forall r | r in records :: r.id in ids
    ensures forall id | id in ids :: exists r | r in records :: r.id == id
  {
    set r | r in records :: r.id
  }

  /** Stated over the multiset, so that reordering an index cannot break it. */
  ghost predicate DistinctIds(records: seq<Record>) {
    && (forall r | r in records :: multiset(records)[r] == 1)
    && (forall r, q | r in records && q in records && r.id == q.id :: r == q)
  }

  /** An unreadable timestamp counts as now, so it never ages out. */
  function Stamp(r: Record, now: int): int {
    r.startedAt.GetOr(now)
  }

  predicate Survives(r: Record, protect: nat, now: int) {
    r.id == protect || Stamp(r, now) >= now - MAX_AGE
  }

  function Surviving(records: seq<Record>, protect: nat, now: int): seq<Record> {
    if records == [] then []
    else Surviving(records[..|records| - 1], protect, now)
         + (if Survives(records[|records| - 1], protect, now) then [records[|records| - 1]] else [])
  }

  function Expired(records: seq<Record>, protect: nat, now: int): seq<Record> {
    if records == [] then []
    else Expired(records[..|records| - 1], protect, now)
         + (if Survives(records[|records| - 1], protect, now) then [] else [records[|records| - 1]])
  }

  function Newest(entries: seq<Record>): seq<Record> {
    if |entries| <= MAX_ENTRIES then entries else entries[..MAX_ENTRIES]
  }

  function Kept(entries: seq<Record>, protect: nat, now: int): seq<Record> {
    Surviving(Newest(entries), protect, now)
  }

  function Dropped(entries: seq<Record>, protect: nat, now: int): seq<Record> {
    entries[|Newest(entries)|..] + Expired(Newest(entries), protect, now)
  }

  /** One pass over the newest entries splits the index. */
  method SelectKept(entries: seq<Record>, protect: nat, now: int) returns (kept: seq<Record>, dropped: seq<Record>)
    ensures kept == Kept(entries, protect, now) && dropped == Dropped(entries, protect, now)
    ensures multiset(kept) + multiset(dropped) == multiset(entries)
  {
    var newest := Newest(entries);
    kept, dropped := [], entries[|newest|..];
    var i := 0;
    while i < |newest|
      invariant 0 <= i <= |newest|
      invariant kept == Surviving(newest[..i], protect, now)
      invariant dropped == entries[|newest|..] + Expired(newest[..i], protect, now)
    {
      assert newest[..i + 1][..i] == newest[..i];
      if Survives(newest[i], protect, now) {
        kept := kept + [newest[i]];
      } else {
        dropped := dropped + [newest[i]];
      }
      i := i + 1;
    }
    assert newest[..i] == newest;
    SplitsIndex(entries, protect, now);
  }

  lemma {:induction false} SurvivingOrExpired(records: seq<Record>, protect: nat, now: int)
    ensures multiset(Surviving(records, protect, now)) + multiset(Expired(records, protect, now)) == multiset(records)
    ensures forall r | r in Surviving(records, protect, now) :: Survives(r, protect, now)
    ensures forall r | r in Expired(records, protect, now) :: !Survives(r, protect, now)
    ensures |Surviving(records, protect, now)| <= |records|
  {
    if records != [] {
      var front := records[..|records| - 1];
      SurvivingOrExpired(front, protect, now);
      assert records == front + [records[|records| - 1]];
    }
  }

  /** Nothing is invented and nothing vanishes: every entry is kept or dropped, and never both. */
  lemma SplitsIndex(entries: seq<Record>, protect: nat, now: int)
    ensures multiset(Kept(entries, protect, now)) + multiset(Dropped(entries, protect, now)) == multiset(entries)
    ensures |Kept(entries, protect, now)| <= MAX_ENTRIES
  {
    var newest := Newest(entries);
    SurvivingOrExpired(newest, protect, now);
    assert entries == newest + entries[|newest|..];
    ThreeParts(Surviving(newest, protect, now), Expired(newest, protect, now), newest, entries[|newest|..]);
  }

  lemma ThreeParts(kept: seq<Record>, expired: seq<Record>, newest: seq<Record>, beyond: seq<Record>)
    requires multiset(kept) + multiset(expired) == multiset(newest)
    ensures multiset(kept) + multiset(beyond + expired) == multiset(newest + beyond)
  {
    assert multiset(beyond + expired) == multiset(beyond) + multiset(expired);
    assert multiset(newest + beyond) == multiset(newest) + multiset(beyond);
  }

  /** The record just inserted is never pruned by its own commit, whatever its clock said. */
  lemma InsertedIsKept(record: Record, entries: seq<Record>, now: int)
    ensures record in Kept([record] + entries, record.id, now)
  {
    var all := [record] + entries;
    SurvivingOrExpired(Newest(all), record.id, now);
    assert Newest(all)[0] == record;
    InBoth(Kept(all, record.id, now), Expired(Newest(all), record.id, now), Newest(all));
    assert record in Newest(all);
  }

  /** A record leaves the index only by count or by age. */
  lemma DroppedOnlyByRule(entries: seq<Record>, protect: nat, now: int, r: Record)
    requires r in Dropped(entries, protect, now)
    ensures || (exists k :: 500 <= k < |entries| && entries[k] == r)
            || (r.id != protect && r.startedAt.Some? && r.startedAt.value < now - 90 * 86400)
  {
    SurvivingOrExpired(Newest(entries), protect, now);
    var beyond := entries[|Newest(entries)|..];
    if k :| 0 <= k < |beyond| && beyond[k] == r {
      assert entries[|Newest(entries)| + k] == r;
    }
  }

  /** The records at these positions, which go up. */
  ghost predicate PickedAt(at: seq<nat>, picked: seq<Record>, all: seq<Record>) {
    && |at| == |picked|
    && (forall j | 0 <= j < |at| :: at[j] < |all| && picked[j] == all[at[j]])
    && (forall i, j | 0 <= i < j < |at| :: at[i] < at[j])
  }

  lemma PickedAtMore(at: seq<nat>, picked: seq<Record>, front: seq<Record>, last: Record)
    requires PickedAt(at, picked, front)
    ensures PickedAt(at, picked, front + [last])
    ensures PickedAt(at + [|front|], picked + [last], front + [last])
  {
  }

  lemma {:induction false} SurvivingAt(records: seq<Record>, protect: nat, now: int) returns (at: seq<nat>)
    ensures PickedAt(at, Surviving(records, protect, now), records)
    ensures forall k | 0 <= k < |records| ::
              k in at <==> records[k].id == protect || records[k].startedAt.None? || records[k].startedAt.value >= now - 90 * 86400
  {
    at := [];
    if records != [] {
      var n := |records| - 1;
      var front, last := records[..n], records[n];
      at := SurvivingAt(front, protect, now);
      PickedAtMore(at, Surviving(front, protect, now), front, last);
      assert records == front + [last];
      assert forall k | 0 <= k < n :: front[k] == records[k];
      if Survives(last, protect, now) {
        at := at + [n];
      }
    }
  }

  /**
   A commit keeps, in order, exactly the first 500 entries that are the protected one, or carry no readable
   timestamp, or are at most 90 days old. By SplitsIndex it drops exactly the others.
   */
  lemma KeptExactly(entries: seq<Record>, protect: nat, now: int) returns (at: seq<nat>)
    ensures PickedAt(at, Kept(entries, protect, now), entries)
    ensures forall k | 0 <= k < |entries| ::
              k in at <==> k < 500 && (entries[k].id == protect || entries[k].startedAt.None? || entries[k].startedAt.value >= now - 90 * 86400)
  {
    var newest := Newest(entries);
    at := SurvivingAt(newest, protect, now);
    assert forall k | 0 <= k < |newest| :: newest[k] == entries[k];
    forall k | |newest| <= k < |entries|
      ensures k !in at
    {
    }
  }

  /** In particular an index of at most 500 entries, none older than 90 days, is kept whole. */
  lemma FreshIndexIsKept(entries: seq<Record>, protect: nat, now: int)
    requires |entries| <= 500
    requires forall k | 0 <= k < |entries| :: entries[k].startedAt.None? || entries[k].startedAt.value >= now - 90 * 86400
    ensures Kept(entries, protect, now) == entries && Dropped(entries, protect, now) == []
  {
    AllSurvive(entries, protect, now);
  }

  lemma {:induction false} AllSurvive(records: seq<Record>, protect: nat, now: int)
    requires forall k | 0 <= k < |records| :: records[k].startedAt.None? || records[k].startedAt.value >= now - 90 * 86400
    ensures Surviving(records, protect, now) == records && Expired(records, protect, now) == []
  {
    if records != [] {
      AllSurvive(records[..|records| - 1], protect, now);
      assert records == records[..|records| - 1] + [records[|records| - 1]];
    }
  }

  lemma KeptIdsLeaveDroppedIds(entries: seq<Record>, protect: nat, now: int)
    requires DistinctIds(entries)
    ensures Ids(Kept(entries, protect, now)) !! Ids(Dropped(entries, protect, now))
    ensures Ids(Kept(entries, protect, now)) + Ids(Dropped(entries, protect, now)) == Ids(entries)
    ensures DistinctIds(Kept(entries, protect, now))
    ensures forall r | r in Kept(entries, protect, now) :: r in entries
  {
    var kept, dropped := Kept(entries, protect, now), Dropped(entries, protect, now);
    SplitsIndex(entries, protect, now);
    InBoth(kept, dropped, entries);
    forall r | r in kept
      ensures multiset(kept)[r] == 1
    {
      assert multiset(entries)[r] == multiset(kept)[r] + multiset(dropped)[r];
      assert r in multiset(kept);
    }
    forall r, q | r in kept && q in dropped
      ensures r.id != q.id
    {
      assert r in multiset(kept) && q in multiset(dropped);
      assert multiset(entries)[r] == multiset(kept)[r] + multiset(dropped)[r];
    }
  }

  lemma InBoth(a: seq<Record>, b: seq<Record>, whole: seq<Record>)
    requires multiset(a) + multiset(b) == multiset(whole)
    ensures forall r :: r in whole <==> r in a || r in b
    ensures Ids(whole) == Ids(a) + Ids(b)
  {
    forall r
      ensures r in whole <==> r in a || r in b
    {
      assert r in whole <==> r in multiset(whole);
      assert r in multiset(whole) <==> r in multiset(a) || r in multiset(b);
    }
  }

  lemma ConsKeepsDistinct(record: Record, entries: seq<Record>)
    requires DistinctIds(entries) && record.id !in Ids(entries)
    ensures DistinctIds([record] + entries)
    ensures Ids([record] + entries) == {record.id} + Ids(entries)
  {
    var all := [record] + entries;
    InBoth([record], entries, all);
    assert record !in entries;
    forall r | r in all
      ensures multiset(all)[r] == 1
    {
      assert multiset(all) == multiset{record} + multiset(entries);
      assert r in multiset(entries) <==> r in entries;
    }
  }

  // ------------------------------------------------------------------
  // Output files
  // ------------------------------------------------------------------

  /** `str.split("\n")`: always at least one piece. */
  function SplitLines(text: string): (pieces: seq<string>)
    ensures pieces != []
  {
    if text == "" then [""]
    else
      var rest := SplitLines(text[1..]);
      if text[0] == '\n' then [""] + rest
      else [[text[0]] + rest[0]] + rest[1..]
  }

  function JoinLines(lines: seq<string>): string {
    if lines == [] then ""
    else if |lines| == 1 then lines[0]
    else lines[0] + "\n" + JoinLines(lines[1..])
  }

  function Flattened(lines: seq<string>): seq<string> {
    if lines == [] then [] else Flattened(lines[..|lines| - 1]) + SplitLines(lines[|lines| - 1])
  }

  /** The text stored for a run and the line count its record carries. */
  method WriteOutput(lines: seq<string>) returns (text: string, count: nat)
    ensures text == JoinLines(Flattened(lines)) && count == |Flattened(lines)|
  {
    var flat: seq<string> := [];
    var i := 0;
    while i < |lines|
      invariant 0 <= i <= |lines|
      invariant flat == Flattened(lines[..i])
    {
      assert lines[..i + 1][..i] == lines[..i];
      flat := flat + SplitLines(lines[i]);
      i := i + 1;
    }
    assert lines[..i] == lines;
    text, count := JoinLines(flat), |flat|;
  }

  /** Reading in text mode: a carriage return, with or without a newline, ends a line. */
  function Universal(text: string): string {
    if text == "" then ""
    else if text[0] != '\r' then [text[0]] + Universal(text[1..])
    else "\n" + Universal(if |text| > 1 && text[1] == '\n' then text[2..] else text[1..])
  }

  function ReadOutput(file: string): seq<string> {
    var text := Universal(file);
    if text == "" then [] else SplitLines(text)
  }

  lemma {:induction false} UniversalHasNoReturn(text: string)
    ensures '\r' !in Universal(text)
    ensures '\r' !in text ==> Universal(text) == text
    decreases |text|
  {
    if text != "" {
      UniversalHasNoReturn(text[1..]);
      if |text| > 1 {
        UniversalHasNoReturn(text[2..]);
      }
      assert text == [text[0]] + text[1..];
    }
  }

  /** A return and a newline together end one line, a return alone ends one too. */
  lemma ReturnEndsALine(rest: string)
    ensures Universal("\r" + ("\n" + rest)) == "\n" + Universal(rest)
    ensures (rest == "" || rest[0] != '\n') ==> Universal("\r" + rest) == "\n" + Universal(rest)
  {
    var both, one := "\r" + ("\n" + rest), "\r" + rest;
    assert both[0] == '\r' && both[1] == '\n' && both[2..] == rest;
    assert Universal(both) == "\n" + Universal(both[2..]);
    assert one[0] == '\r' && one[1..] == rest && (|one| > 1 ==> one[1] == rest[0]);
  }

  lemma {:induction false} SplitAddsNothing(text: string, c: char)
    requires c !in text
    ensures forall p | p in SplitLines(text) :: c !in p
  {
    if text != "" {
      SplitAddsNothing(text[1..], c);
    }
  }

  lemma {:induction false} JoinAddsNewlines(lines: seq<string>, c: char)
    requires c != '\n' && forall p | p in lines :: c !in p
    ensures c !in JoinLines(lines)
  {
    if |lines| > 1 {
      JoinAddsNewlines(lines[1..], c);
    }
  }

  lemma {:induction false} SplitHasNoNewline(text: string)
    ensures forall p | p in SplitLines(text) :: '\n' !in p
  {
    if text != "" {
      SplitHasNoNewline(text[1..]);
    }
  }

  lemma {:induction false} FlattenedHasNoNewline(lines: seq<string>)
    ensures forall p | p in Flattened(lines) :: '\n' !in p
    ensures lines != [] ==> Flattened(lines) != []
  {
    if lines != [] {
      FlattenedHasNoNewline(lines[..|lines| - 1]);
      SplitHasNoNewline(lines[|lines| - 1]);
    }
  }

  lemma {:induction false} SplitOfPlain(line: string)
    requires '\n' !in line
    ensures SplitLines(line) == [line]
  {
    if line != "" {
      SplitOfPlain(line[1..]);
      assert line == [line[0]] + line[1..];
    }
  }

  lemma {:induction false} SplitAfterLine(line: string, rest: string)
    requires '\n' !in line
    ensures SplitLines(line + "\n" + rest) == [line] + SplitLines(rest)
  {
    var text := line + "\n" + rest;
    if line == "" {
      assert text[1..] == rest;
    } else {
      assert text[1..] == line[1..] + "\n" + rest;
      SplitAfterLine(line[1..], rest);
      assert line == [line[0]] + line[1..];
    }
  }

  lemma {:induction false} SplitUndoesJoin(lines: seq<string>)
    requires lines != [] && forall p | p in lines :: '\n' !in p
    ensures SplitLines(JoinLines(lines)) == lines
  {
    if |lines| == 1 {
      SplitOfPlain(lines[0]);
    } else {
      SplitUndoesJoin(lines[1..]);
      SplitAfterLine(lines[0], JoinLines(lines[1..]));
    }
  }

  /** The two kinds of output that do not survive: a lone empty line, and a line with a carriage return. */
  predicate Storable(flat: seq<string>) {
    flat != [""] && forall p | p in flat :: '\r' !in p
  }

  /**
   What the activity page shows is what was captured, line for line, exactly then. The single empty
   line is stored as an empty file and reads back as no lines; a carriage return reads back as a line end.
   */
  lemma OutputReadsBack(lines: seq<string>)
    ensures ReadOutput(JoinLines(Flattened(lines))) == Flattened(lines) <==> Storable(Flattened(lines))
  {
    var flat := Flattened(lines);
    FlattenedHasNoNewline(lines);
    ReadBackIsPlain(JoinLines(flat));
    if forall p | p in flat :: '\r' !in p {
      JoinAddsNewlines(flat, '\r');
      UniversalHasNoReturn(JoinLines(flat));
      JoinedReadsBack(flat);
    }
  }

  lemma ReadBackIsPlain(file: string)
    ensures forall p | p in ReadOutput(file) :: '\r' !in p
  {
    UniversalHasNoReturn(file);
    SplitAddsNothing(Universal(file), '\r');
  }

  lemma JoinedReadsBack(flat: seq<string>)
    requires forall p | p in flat :: '\n' !in p
    ensures var text := JoinLines(flat); (if text == "" then [] else SplitLines(text)) == flat <==> flat != [""]
  {
    if flat != [] {
      SplitUndoesJoin(flat);
      if |flat| > 1 {
        assert JoinLines(flat) == flat[0] + "\n" + JoinLines(flat[1..]);
      }
    }
  }
}
