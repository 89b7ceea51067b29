/**
 The slow-log collector of the Redis source: a high-water mark over event ids. The mark is kept in a
 table: a failed read of it counts as no mark, and a failed write leaves the old one.
 */
module RedisSlowlog {

  /** One slow-log entry: its id, its duration and the command with its arguments. */
  datatype Entry = Entry(id: int, durUs: int, args: seq<string>)

  /** A stored sample. */
  datatype Sample = Sample(id: int, args: seq<string>, elapsedMs: int)

  function ToAsciiLower(c: char): char {
    if 'A' <= c <= 'Z' then (c as int + 32) as char else c
  }

  predicate IsSlowlogCommand(name: string) {
    |name| == 7 && forall i :: 0 <= i < 7 ==> ToAsciiLower(name[i]) == "slowlog"[i]
  }

  /** Entries the collector takes: not its own command, and beyond the high-water mark. */
  predicate Wanted(e: Entry, last: nat) {
    e.args != [] && !IsSlowlogCommand(e.args[0]) && e.id > 0 && e.id > last
  }

  function SampleOf(e: Entry): Sample {
    Sample(e.id, e.args, if e.durUs / 1000 > 1 then e.durUs / 1000 else 1)
  }

  /** The samples stored from `entries` when insert `i` succeeds exactly if `ok[i]`. */
  function Taken(entries: seq<Entry>, last: nat, ok: seq<bool>): seq<Sample> {
    if entries == [] then []
    else
      var n := |entries| - 1;
      Taken(entries[..n], last, ok) +
      if Wanted(entries[n], last) && n < |ok| && ok[n] then [SampleOf(entries[n])] else []
  }

  function HighWater(samples: seq<Sample>, last: nat): nat {
    if samples == [] then last
    else
      var m := HighWater(samples[..|samples| - 1], last);
      var id := samples[|samples| - 1].id;
      if id > m then id else m
  }

  /** One SLOWLOG GET: what the server answers, which inserts succeed, and whether the mark is read and written. */
  datatype Fetch = Fetch(entries: seq<Entry>, insertOk: seq<bool>, readOk: bool, saveOk: bool)

  /** The mark in the table (zero when there is none) and all samples stored so far. */
  datatype State = State(cursor: nat, stored: seq<Sample>)

  const START := State(0, [])

  function Last(s: State, f: Fetch): nat {
    if f.readOk then s.cursor else 0
  }

  function TakenBy(s: State, f: Fetch): seq<Sample> {
    Taken(f.entries, Last(s, f), f.insertOk)
  }

  function MarkOf(s: State, f: Fetch): nat {
    HighWater(TakenBy(s, f), Last(s, f))
  }

  function Step(s: State, f: Fetch): State {
    State(if MarkOf(s, f) > Last(s, f) && f.saveOk then MarkOf(s, f) else s.cursor, s.stored + TakenBy(s, f))
  }

  function After(fetches: seq<Fetch>): State {
    if fetches == [] then START else Step(After(fetches[..|fetches| - 1]), fetches[|fetches| - 1])
  }

  lemma TakenNext(entries: seq<Entry>, last: nat, ok: seq<bool>, i: nat)
    requires i < |entries|
    ensures Taken(entries[..i + 1], last, ok) ==
            Taken(entries[..i], last, ok) + if Wanted(entries[i], last) && i < |ok| && ok[i] then [SampleOf(entries[i])] else []
  {
    assert entries[..i + 1][..i] == entries[..i];
  }

  lemma HighWaterNext(samples: seq<Sample>, x: Sample, last: nat)
    ensures HighWater(samples + [x], last) == if x.id > HighWater(samples, last) then x.id else HighWater(samples, last)
  {
    assert (samples + [x])[..|samples|] == samples;
  }

  lemma NothingTaken(last: nat, ok: seq<bool>)
    ensures Taken([], last, ok) == [] && HighWater([], last) == last
  {
  }

  class Collector {
    var cursor: nat
    var stored: seq<Sample>

    function Contents(): State
      reads this
    {
      State(cursor, stored)
    }

    constructor ()
      ensures Contents() == START
    {
      cursor, stored := 0, [];
    }

    method CollectRedis(f: Fetch) returns (n: nat)
      modifies this
      ensures Contents() == Step(old(Contents()), f)
      ensures n == |stored| - |old(stored)|
    {
      hide Taken, HighWater, Wanted;
      var last := if f.readOk then cursor else 0;
      NothingTaken(last, f.insertOk);
      var maxId := last;
      n := 0;
      var i := 0;
      while i < |f.entries|
        invariant 0 <= i <= |f.entries|
        invariant cursor == old(cursor)
        invariant stored == old(stored) + Taken(f.entries[..i], last, f.insertOk)
        invariant maxId == HighWater(Taken(f.entries[..i], last, f.insertOk), last)
        invariant n == |Taken(f.entries[..i], last, f.insertOk)|
      {
        TakenNext(f.entries, last, f.insertOk, i);
        ghost var before := Taken(f.entries[..i], last, f.insertOk);
        var e := f.entries[i];
        i := i + 1;
        if !Wanted(e, last) || !(i - 1 < |f.insertOk| && f.insertOk[i - 1]) {
          assert before + [] == before;
          continue;
        }
        HighWaterNext(before, SampleOf(e), last);
        assert old(stored) + before + [SampleOf(e)] == old(stored) + (before + [SampleOf(e)]);
        stored := stored + [SampleOf(e)];
        maxId := if e.id > maxId then e.id else maxId;
        n := n + 1;
      }
      assert f.entries[..i] == f.entries;
      if maxId > last && f.saveOk {
        cursor := maxId;
      }
    }
  }

  // ── What is stored ──

  /** The name of the collector's own command, in any letter case. */
  lemma OwnCommandExactly(name: string)
    ensures IsSlowlogCommand(name) <==>
            |name| == 7 && name[0] in "sS" && name[1] in "lL" && name[2] in "oO" && name[3] in "wW" && name[4] in "lL" && name[5] in "oO" && name[6] in "gG"
  {
    hide IsSlowlogCommand, ToAsciiLower;
    if |name| == 7 {
      LowerIs(name[0], 's');
      LowerIs(name[1], 'l');
      LowerIs(name[2], 'o');
      LowerIs(name[3], 'w');
      LowerIs(name[4], 'l');
      LowerIs(name[5], 'o');
      LowerIs(name[6], 'g');
      SevenLetters(name);
    } else {
      assert !IsSlowlogCommand(name) by { OwnLength(name); }
    }
  }

  lemma OwnLength(name: string)
    ensures IsSlowlogCommand(name) ==> |name| == 7
  {
  }

  lemma LowerIs(c: char, l: char)
    requires 'a' <= l <= 'z'
    ensures ToAsciiLower(c) == l <==> c == l || c == (l as int - 32) as char
  {
  }

  lemma SevenLetters(name: string)
    requires |name| == 7
    ensures IsSlowlogCommand(name) <==>
            && ToAsciiLower(name[0]) == 's' && ToAsciiLower(name[1]) == 'l' && ToAsciiLower(name[2]) == 'o' && ToAsciiLower(name[3]) == 'w'
            && ToAsciiLower(name[4]) == 'l' && ToAsciiLower(name[5]) == 'o' && ToAsciiLower(name[6]) == 'g'
  {
    hide ToAsciiLower;
    var own := "slowlog";
    assert own[0] == 's' && own[1] == 'l' && own[2] == 'o' && own[3] == 'w' && own[4] == 'l' && own[5] == 'o' && own[6] == 'g';
  }

  /** The entry is new, is a command, is not the collector's own, and its insert succeeds. */
  predicate ToBeStored(entries: seq<Entry>, last: nat, ok: seq<bool>, k: nat) {
    && k < |entries| && k < |ok| && ok[k] && entries[k].id > last
    && entries[k].args != [] && !IsSlowlogCommand(entries[k].args[0])
  }

  /** The sample keeps id and command, and the time in whole milliseconds, at least one. */
  predicate Tells(x: Sample, e: Entry) {
    && x.id == e.id && x.args == e.args && x.elapsedMs >= 1
    && (x.elapsedMs * 1000 <= e.durUs < (x.elapsedMs + 1) * 1000 || (x.elapsedMs == 1 && e.durUs < 1000))
  }

  /** How many of the first `k` entries are to be stored. */
  function Rank(entries: seq<Entry>, last: nat, ok: seq<bool>, k: nat): nat
    requires k <= |entries|
  {
    if k == 0 then 0 else Rank(entries, last, ok, k - 1) + if ToBeStored(entries, last, ok, k - 1) then 1 else 0
  }

  lemma {:induction false} RankOfPrefix(entries: seq<Entry>, last: nat, ok: seq<bool>, k: nat, n: nat)
    requires k <= n <= |entries|
    ensures Rank(entries[..n], last, ok, k) == Rank(entries, last, ok, k)
  {
    if k > 0 {
      RankOfPrefix(entries, last, ok, k - 1, n);
    }
  }

  /** Every entry to be stored is, at its place in order, and nothing else is. */
  lemma {:induction false} StoredExactly(entries: seq<Entry>, last: nat, ok: seq<bool>)
    ensures |Taken(entries, last, ok)| == Rank(entries, last, ok, |entries|)
    ensures forall k :: 0 <= k < |entries| && ToBeStored(entries, last, ok, k) ==>
              Rank(entries, last, ok, k) < |Taken(entries, last, ok)| && Tells(Taken(entries, last, ok)[Rank(entries, last, ok, k)], entries[k])
  {
    hide IsSlowlogCommand;
    if entries != [] {
      var n := |entries| - 1;
      var front := entries[..n];
      StoredExactly(front, last, ok);
      RankOfPrefix(entries, last, ok, n, n);
      assert Wanted(entries[n], last) && n < |ok| && ok[n] <==> ToBeStored(entries, last, ok, n);
      assert Tells(SampleOf(entries[n]), entries[n]) by { SampleTells(entries[n]); }
      forall k | 0 <= k < |entries| && ToBeStored(entries, last, ok, k)
        ensures Rank(entries, last, ok, k) < |Taken(entries, last, ok)| && Tells(Taken(entries, last, ok)[Rank(entries, last, ok, k)], entries[k])
      {
        if k < n {
          RankOfPrefix(entries, last, ok, k, n);
          assert ToBeStored(front, last, ok, k) && front[k] == entries[k];
        }
      }
    }
  }

  lemma SampleTells(e: Entry)
    ensures Tells(SampleOf(e), e)
  {
  }

  // ── One fetch ──

  /** The server gives each event its own id. */
  predicate DistinctIds(entries: seq<Entry>) {
    forall i, j :: 0 <= i < j < |entries| ==> entries[i].id != entries[j].id
  }

  predicate NoRepeats(samples: seq<Sample>) {
    forall i, j :: 0 <= i < j < |samples| ==> samples[i].id != samples[j].id
  }

  predicate AllUpTo(samples: seq<Sample>, mark: nat) {
    forall i :: 0 <= i < |samples| ==> samples[i].id <= mark
  }

  predicate Disjoint(a: seq<Sample>, b: seq<Sample>) {
    forall i, j :: 0 <= i < |a| && 0 <= j < |b| ==> a[i].id != b[j].id
  }

  predicate Above(samples: seq<Sample>, mark: nat) {
    forall i :: 0 <= i < |samples| ==> samples[i].id > mark
  }

  lemma {:induction false} HighWaterIsHighest(samples: seq<Sample>, last: nat)
    ensures HighWater(samples, last) >= last
    ensures AllUpTo(samples, HighWater(samples, last))
    ensures HighWater(samples, last) == last || exists i :: 0 <= i < |samples| && samples[i].id == HighWater(samples, last)
  {
    if samples != [] {
      var front := samples[..|samples| - 1];
      HighWaterIsHighest(front, last);
      assert forall i :: 0 <= i < |front| ==> samples[i] == front[i];
      if HighWater(front, last) != last {
        var i :| 0 <= i < |front| && front[i].id == HighWater(front, last);
        assert samples[i] == front[i];
      }
    }
  }

  lemma {:induction false} TakenIsNew(entries: seq<Entry>, last: nat, ok: seq<bool>)
    ensures Above(Taken(entries, last, ok), last)
  {
    if entries != [] {
      TakenIsNew(entries[..|entries| - 1], last, ok);
    }
  }

  predicate HasId(entries: seq<Entry>, id: int) {
    exists k :: 0 <= k < |entries| && entries[k].id == id
  }

  lemma {:induction false} TakenIsFetched(entries: seq<Entry>, last: nat, ok: seq<bool>, i: nat)
    requires i < |Taken(entries, last, ok)|
    ensures HasId(entries, Taken(entries, last, ok)[i].id)
  {
    hide HasId;
    var n := |entries| - 1;
    var front := Taken(entries[..n], last, ok);
    if i < |front| {
      TakenIsFetched(entries[..n], last, ok, i);
      HasIdExtends(entries, front[i].id);
    } else {
      HasItsId(entries, n);
    }
  }

  lemma HasIdExtends(entries: seq<Entry>, id: int)
    requires entries != [] && HasId(entries[..|entries| - 1], id)
    ensures HasId(entries, id)
  {
    var k :| 0 <= k < |entries| - 1 && entries[..|entries| - 1][k].id == id;
    assert entries[k].id == id;
  }

  lemma HasItsId(entries: seq<Entry>, k: nat)
    requires k < |entries|
    ensures HasId(entries, entries[k].id)
  {
  }

  lemma {:induction false} TakenOnce(entries: seq<Entry>, last: nat, ok: seq<bool>)
    requires DistinctIds(entries)
    ensures NoRepeats(Taken(entries, last, ok))
  {
    if entries != [] {
      var n := |entries| - 1;
      var front := Taken(entries[..n], last, ok);
      TakenOnce(entries[..n], last, ok);
      forall i | 0 <= i < |front| ensures front[i].id != entries[n].id {
        TakenIsFetched(entries[..n], last, ok, i);
        var k :| 0 <= k < n && entries[..n][k].id == front[i].id;
        assert entries[k].id != entries[n].id;
      }
    }
  }

  lemma NoRepeatsConcat(a: seq<Sample>, b: seq<Sample>)
    ensures NoRepeats(a + b) <==> NoRepeats(a) && NoRepeats(b) && Disjoint(a, b)
  {
    var all := a + b;
    assert forall i :: 0 <= i < |a| ==> all[i] == a[i];
    assert forall j :: 0 <= j < |b| ==> all[|a| + j] == b[j];
    if NoRepeats(all) {
      forall i, j | 0 <= i < |a| && 0 <= j < |b| ensures a[i].id != b[j].id {
        assert all[i].id != all[|a| + j].id;
      }
      forall i, j | 0 <= i < j < |b| ensures b[i].id != b[j].id {
        assert all[|a| + i].id != all[|a| + j].id;
      }
    }
  }

  // ── When an event can be stored twice ──

  /** Some answer of the server, with the mark read, would be stored a second time. */
  ghost predicate CanRepeat(s: State) {
    exists f: Fetch :: f.readOk && DistinctIds(f.entries) && !NoRepeats(Step(s, f).stored)
  }

  ghost predicate Safe(s: State) {
    NoRepeats(s.stored) && !CanRepeat(s)
  }

  /** With nothing stored twice so far, a repeat is possible exactly when the mark is behind a stored sample. */
  lemma RepeatsExactlyBehindTheMark(s: State)
    requires NoRepeats(s.stored)
    ensures CanRepeat(s) <==> !AllUpTo(s.stored, s.cursor)
  {
    hide Taken, NoRepeats;
    if AllUpTo(s.stored, s.cursor) {
      forall f: Fetch | f.readOk && DistinctIds(f.entries) ensures NoRepeats(Step(s, f).stored) {
        TakenIsNew(f.entries, s.cursor, f.insertOk);
        TakenOnce(f.entries, s.cursor, f.insertOk);
        NoRepeatsConcat(s.stored, TakenBy(s, f));
      }
    } else {
      var i :| 0 <= i < |s.stored| && s.stored[i].id > s.cursor;
      var e := Entry(s.stored[i].id, 0, ["GET"]);
      var f := Fetch([e], [true], true, true);
      TakenSingle(e, s.cursor);
      NoRepeatsConcat(s.stored, [SampleOf(e)]);
      assert [SampleOf(e)][0].id == s.stored[i].id;
      assert !NoRepeats(Step(s, f).stored);
    }
  }

  /** When the mark cannot be read, a repeat is possible exactly when anything is stored. */
  lemma BlindReadRepeatsExactly(s: State)
    requires NoRepeats(s.stored) && Above(s.stored, 0)
    ensures (exists f: Fetch :: !f.readOk && DistinctIds(f.entries) && !NoRepeats(Step(s, f).stored)) <==> s.stored != []
  {
    hide Taken, NoRepeats;
    if s.stored == [] {
      forall f: Fetch | !f.readOk && DistinctIds(f.entries) ensures NoRepeats(Step(s, f).stored) {
        TakenOnce(f.entries, 0, f.insertOk);
        NoRepeatsConcat(s.stored, TakenBy(s, f));
      }
    } else {
      var e := Entry(s.stored[0].id, 0, ["GET"]);
      var f := Fetch([e], [true], false, true);
      TakenSingle(e, 0);
      NoRepeatsConcat(s.stored, [SampleOf(e)]);
      assert [SampleOf(e)][0].id == s.stored[0].id;
      assert !NoRepeats(Step(s, f).stored);
    }
  }

  lemma {:induction false} StoredArePositive(fetches: seq<Fetch>)
    ensures Above(After(fetches).stored, 0)
  {
    hide Taken;
    if fetches != [] {
      var s, f := After(fetches[..|fetches| - 1]), fetches[|fetches| - 1];
      StoredArePositive(fetches[..|fetches| - 1]);
      TakenIsNew(f.entries, Last(s, f), f.insertOk);
    }
  }

  lemma TakenSingle(e: Entry, last: nat)
    requires Wanted(e, last)
    ensures Taken([e], last, [true]) == [SampleOf(e)] && HighWater([SampleOf(e)], last) == e.id
  {
    assert [e][..0] == [] && [SampleOf(e)][..0] == [];
  }

  /**
   A fetch keeps the store safe: nothing it takes is stored already, and if it takes anything, the mark
   it leaves in the table is not behind a stored sample.
   */
  predicate Keeps(s: State, f: Fetch) {
    var taken := TakenBy(s, f);
    && Disjoint(s.stored, taken)
    && (taken == [] || if f.saveOk then AllUpTo(s.stored, MarkOf(s, f)) else MarkOf(s, f) <= s.cursor)
  }

  lemma StepIsSafe(s: State, f: Fetch)
    requires Safe(s) && DistinctIds(f.entries)
    ensures Safe(Step(s, f)) <==> Keeps(s, f)
  {
    hide Taken, NoRepeats, Safe, CanRepeat, Disjoint, AllUpTo, HighWater;
    var taken, last := TakenBy(s, f), Last(s, f);
    SafeIsCovered(s);
    TakenOnce(f.entries, last, f.insertOk);
    NoRepeatsConcat(s.stored, taken);
    SafeIsCovered(Step(s, f));
    MarkAfter(s, f);
  }

  lemma SafeIsCovered(s: State)
    ensures Safe(s) <==> NoRepeats(s.stored) && AllUpTo(s.stored, s.cursor)
  {
    hide NoRepeats, CanRepeat, AllUpTo;
    if NoRepeats(s.stored) {
      RepeatsExactlyBehindTheMark(s);
    }
  }

  lemma MarkAfter(s: State, f: Fetch)
    requires AllUpTo(s.stored, s.cursor)
    ensures AllUpTo(Step(s, f).stored, Step(s, f).cursor) <==>
            TakenBy(s, f) == [] || if f.saveOk then AllUpTo(s.stored, MarkOf(s, f)) else MarkOf(s, f) <= s.cursor
  {
    hide Taken;
    var taken, last, mark := TakenBy(s, f), Last(s, f), MarkOf(s, f);
    TakenIsNew(f.entries, last, f.insertOk);
    HighWaterIsHighest(taken, last);
    var s' := Step(s, f);
    assert forall i :: 0 <= i < |s.stored| ==> s'.stored[i] == s.stored[i];
    assert forall j :: 0 <= j < |taken| ==> s'.stored[|s.stored| + j] == taken[j];
    if taken == [] {
      assert s'.stored == s.stored;
    } else {
      assert taken[0].id > last;
      var j :| 0 <= j < |taken| && taken[j].id == mark;
      assert s'.stored[|s.stored| + j].id == mark;
    }
  }

  /** With the mark read, a fetch keeps the store safe exactly when it stores nothing or its mark is written. */
  lemma KeepsWhenRead(s: State, f: Fetch)
    requires Safe(s) && f.readOk
    ensures Keeps(s, f) <==> TakenBy(s, f) == [] || f.saveOk
  {
    hide Taken, NoRepeats, Safe, CanRepeat;
    SafeIsCovered(s);
    TakenIsNew(f.entries, s.cursor, f.insertOk);
    HighWaterIsHighest(TakenBy(s, f), s.cursor);
    if TakenBy(s, f) != [] {
      assert TakenBy(s, f)[0].id > s.cursor;
    }
  }

  /** After a fetch that read its mark, an event can be stored twice exactly when it stored something and its mark was lost. */
  lemma FetchCanBeRepeated(s: State, f: Fetch)
    requires Safe(s) && DistinctIds(f.entries) && f.readOk
    ensures NoRepeats(Step(s, f).stored)
    ensures CanRepeat(Step(s, f)) <==> TakenBy(s, f) != [] && !f.saveOk
  {
    hide Taken, NoRepeats, CanRepeat, AllUpTo;
    SafeIsCovered(s);
    KeepsWhenRead(s, f);
    StepIsSafe(s, f);
    TakenIsNew(f.entries, s.cursor, f.insertOk);
    TakenOnce(f.entries, s.cursor, f.insertOk);
    NoRepeatsConcat(s.stored, TakenBy(s, f));
    AboveIsDisjoint(s.stored, TakenBy(s, f), s.cursor);
  }

  lemma AboveIsDisjoint(a: seq<Sample>, b: seq<Sample>, mark: nat)
    requires AllUpTo(a, mark) && Above(b, mark)
    ensures Disjoint(a, b)
  {
  }

  // ── Whole histories ──

  /** At every point of the history nothing has been stored twice, nor can be by a fetch that reads its mark. */
  ghost predicate AlwaysSafe(fetches: seq<Fetch>) {
    Safe(After(fetches)) && (fetches == [] || AlwaysSafe(fetches[..|fetches| - 1]))
  }

  predicate AlwaysKeeps(fetches: seq<Fetch>) {
    fetches == [] ||
    (AlwaysKeeps(fetches[..|fetches| - 1]) && Keeps(After(fetches[..|fetches| - 1]), fetches[|fetches| - 1]))
  }

  /** Fetches that read their mark and, when they store anything, write it. */
  predicate MarksKept(fetches: seq<Fetch>) {
    fetches == [] ||
    var front, f := fetches[..|fetches| - 1], fetches[|fetches| - 1];
    MarksKept(front) && f.readOk && (f.saveOk || TakenBy(After(front), f) == [])
  }

  /** Whichever reads, inserts and writes fail, a history is safe throughout if and only if every fetch keeps it so. */
  lemma {:induction false} SafeHistoriesExactly(fetches: seq<Fetch>)
    requires forall i :: 0 <= i < |fetches| ==> DistinctIds(fetches[i].entries)
    ensures AlwaysSafe(fetches) <==> AlwaysKeeps(fetches)
  {
    hide Safe, Keeps, Step, DistinctIds;
    if fetches == [] {
      StartIsSafe();
    } else {
      var n := |fetches| - 1;
      var front := fetches[..n];
      assert forall i :: 0 <= i < n ==> front[i] == fetches[i];
      SafeHistoriesExactly(front);
      if AlwaysSafe(front) {
        StepIsSafe(After(front), fetches[n]);
      }
    }
  }

  lemma StartIsSafe()
    ensures Safe(After([]))
  {
    hide CanRepeat;
    SafeIsCovered(START);
  }

  /** No event is stored twice while marks are kept, whichever inserts fail. */
  lemma {:induction false} NoEventStoredTwice(fetches: seq<Fetch>)
    requires forall i :: 0 <= i < |fetches| ==> DistinctIds(fetches[i].entries)
    requires MarksKept(fetches)
    ensures AlwaysSafe(fetches)
  {
    hide Safe, Keeps, Step, DistinctIds, TakenBy;
    if fetches == [] {
      StartIsSafe();
    } else {
      var n := |fetches| - 1;
      var front := fetches[..n];
      assert forall i :: 0 <= i < n ==> front[i] == fetches[i];
      NoEventStoredTwice(front);
      KeepsWhenRead(After(front), fetches[n]);
      StepIsSafe(After(front), fetches[n]);
    }
  }

  /** A lost write of the mark, or a failed read of it, stores the same event again. */
  lemma LostMarksRepeat()
    ensures var e := Entry(1, 5000, ["GET"]);
            && !NoRepeats(After([Fetch([e], [true], true, false), Fetch([e], [true], true, false)]).stored)
            && !NoRepeats(After([Fetch([e], [true], true, true), Fetch([e], [true], false, true)]).stored)
  {
    var e := Entry(1, 5000, ["GET"]);
    TwoFetches(Fetch([e], [true], true, false), Fetch([e], [true], true, false));
    TwoFetches(Fetch([e], [true], true, true), Fetch([e], [true], false, true));
    TakenSingle(e, 0);
    var twice := [SampleOf(e)] + [SampleOf(e)];
    assert [] + [SampleOf(e)] == [SampleOf(e)];
    assert twice[0].id == twice[1].id;
  }

  lemma TwoFetches(f: Fetch, g: Fetch)
    ensures After([f, g]) == Step(Step(START, f), g)
  {
    hide Step;
    assert [f, g][..1] == [f] && [f][..0] == [];
    assert After([f]) == Step(After([]), f);
  }
}
