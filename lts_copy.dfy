/**
 * The copier that moves webform submissions into long-term storage (LTS),
 * and the deploy hook that drives it in batches.
 *
 * The webform submission storage is a list of rows (in storage order); the
 * LTS store is a map from submission id to the stored copy; the key-value
 * store holds one entry, the `changed` time of the last copied submission
 * (the watermark). A `resave` that throws is standing for a write the LTS
 * database refuses: the ids in `rejects`.
 */
module LtsCopy {
  import opened Php
  import PiiRedactor

  /** `copy()`'s default batch size. */
  const CopyLimit: int := 50

  /** A webform submission as the copier sees it. */
  datatype WebformSub = WebformSub(
    sid: nat, changed: int, inDraft: bool,
    elements: PiiRedactor.ElementDefs, data: Entries, notes: string)

  predicate UniqueSids(subs: seq<WebformSub>)
  {
    forall i, j :: 0 <= i < j < |subs| ==> subs[i].sid != subs[j].sid
  }

  // ---------------------------------------------------------------------
  // The copy targets

  /** The entity query's two conditions: changed since the watermark, not a draft. */
  predicate Qualifies(s: WebformSub, watermark: int)
  {
    s.changed > watermark && !s.inDraft
  }

  function Eligible(subs: seq<WebformSub>, watermark: int): (r: seq<WebformSub>)
    ensures forall s :: s in r <==> s in subs && Qualifies(s, watermark)
  {
    if subs == [] then []
    else if Qualifies(subs[0], watermark) then [subs[0]] + Eligible(subs[1..], watermark)
    else Eligible(subs[1..], watermark)
  }

  predicate SortedByChanged(xs: seq<WebformSub>)
  {
    forall i, j :: 0 <= i < j < |xs| ==> xs[i].changed <= xs[j].changed
  }

  /** Puts `x` before the first row that changed no earlier than it. */
  function Insert(x: WebformSub, xs: seq<WebformSub>): (r: seq<WebformSub>)
    ensures multiset(r) == multiset(xs) + multiset{x}
  {
    if xs == [] || x.changed <= xs[0].changed then [x] + xs
    else
      assert xs == [xs[0]] + xs[1..];
      [xs[0]] + Insert(x, xs[1..])
  }

  predicate AtLeast(c: int, ys: seq<WebformSub>)
  {
    forall i :: 0 <= i < |ys| ==> c <= ys[i].changed
  }

  lemma {:induction false} InsertAtLeast(c: int, x: WebformSub, xs: seq<WebformSub>)
    requires c <= x.changed && AtLeast(c, xs)
    ensures AtLeast(c, Insert(x, xs))
  {
    if xs != [] && x.changed > xs[0].changed {
      InsertAtLeast(c, x, xs[1..]);
    }
  }

  lemma ConsSorted(x: WebformSub, ys: seq<WebformSub>)
    requires SortedByChanged(ys) && AtLeast(x.changed, ys)
    ensures SortedByChanged([x] + ys)
  {
  }

  lemma {:induction false} InsertSorted(x: WebformSub, xs: seq<WebformSub>)
    requires SortedByChanged(xs)
    ensures SortedByChanged(Insert(x, xs))
  {
    if xs == [] || x.changed <= xs[0].changed {
      ConsSorted(x, xs);
    } else {
      InsertSorted(x, xs[1..]);
      InsertAtLeast(xs[0].changed, x, xs[1..]);
      ConsSorted(xs[0], Insert(x, xs[1..]));
    }
  }

  /**
   * `sort('changed')`: ascending `changed`.  The query does not order rows
   * that changed at the same time; the model fixes one order for them,
   * storage order, where the database may return either.
   */
  function SortByChanged(xs: seq<WebformSub>): (r: seq<WebformSub>)
    ensures SortedByChanged(r)
    ensures multiset(r) == multiset(xs)
  {
    if xs == [] then []
    else
      assert xs == [xs[0]] + xs[1..];
      InsertSorted(xs[0], SortByChanged(xs[1..]));
      Insert(xs[0], SortByChanged(xs[1..]))
  }

  /** The rows `findCopyTargets` selects: `range(0, count)` applies only when `count > -1`. */
  function TargetRows(subs: seq<WebformSub>, watermark: int, count: int): seq<WebformSub>
  {
    var sorted := SortByChanged(Eligible(subs, watermark));
    if count > -1 && count < |sorted| then sorted[..count] else sorted
  }

  function Sids(rows: seq<WebformSub>): (r: seq<nat>)
    ensures |r| == |rows| && forall i :: 0 <= i < |rows| ==> r[i] == rows[i].sid
  {
    if rows == [] then [] else [rows[0].sid] + Sids(rows[1..])
  }

  function Targets(subs: seq<WebformSub>, watermark: int, count: int): seq<nat>
  {
    Sids(TargetRows(subs, watermark, count))
  }

  /** Every target is a stored submission that changed after the watermark and is not a draft. */
  lemma TargetRowsQualify(subs: seq<WebformSub>, watermark: int, count: int)
    ensures forall s :: s in TargetRows(subs, watermark, count) ==> s in subs && Qualifies(s, watermark)
  {
    var sorted := SortByChanged(Eligible(subs, watermark));
    forall s | s in TargetRows(subs, watermark, count)
      ensures s in subs && Qualifies(s, watermark)
    {
      assert s in sorted;
      assert s in multiset(sorted);
    }
  }

  /** The targets come in ascending `changed` order. */
  lemma TargetRowsSorted(subs: seq<WebformSub>, watermark: int, count: int)
    ensures SortedByChanged(TargetRows(subs, watermark, count))
  {
  }

  /**
   * A non-negative count caps the batch at `count` targets; a smaller one
   * selects every eligible submission.
   */
  lemma TargetRowsCount(subs: seq<WebformSub>, watermark: int, count: int)
    ensures var n := |Eligible(subs, watermark)|;
      |TargetRows(subs, watermark, count)| == if count > -1 && count < n then count else n
    ensures count <= -1 ==> multiset(TargetRows(subs, watermark, count)) == multiset(Eligible(subs, watermark))
  {
    var sorted := SortByChanged(Eligible(subs, watermark));
    assert |multiset(sorted)| == |sorted|;
    assert |multiset(Eligible(subs, watermark))| == |Eligible(subs, watermark)|;
  }

  /**
   * An eligible submission left out of the batch was cut off by the cap,
   * and changed no earlier than the last target.
   */
  lemma TargetRowsLeftOut(subs: seq<WebformSub>, watermark: int, count: int, s: WebformSub)
    requires s in subs && Qualifies(s, watermark)
    requires s !in TargetRows(subs, watermark, count)
    ensures count > -1 && |TargetRows(subs, watermark, count)| == count
    ensures var rows := TargetRows(subs, watermark, count);
      rows != [] ==> rows[|rows| - 1].changed <= s.changed
  {
    var sorted := SortByChanged(Eligible(subs, watermark));
    assert s in multiset(Eligible(subs, watermark));
    assert s in multiset(sorted);
    var j :| 0 <= j < |sorted| && sorted[j] == s;
  }

  lemma EligibleUnique(subs: seq<WebformSub>, watermark: int)
    requires UniqueSids(subs)
    ensures UniqueSids(Eligible(subs, watermark))
  {
    if subs != [] {
      EligibleUnique(subs[1..], watermark);
      forall s | s in Eligible(subs[1..], watermark)
        ensures s.sid != subs[0].sid
      {
        var j :| 0 <= j < |subs[1..]| && subs[1..][j] == s;
        assert subs[j + 1] == s;
      }
    }
  }

  /** A permutation of rows with distinct ids has distinct ids. */
  lemma PermutationUnique(xs: seq<WebformSub>, ys: seq<WebformSub>)
    requires multiset(xs) == multiset(ys) && UniqueSids(xs)
    ensures UniqueSids(ys)
  {
    forall i, j | 0 <= i < j < |ys|
      ensures ys[i].sid != ys[j].sid
    {
      assert ys[i] in multiset(xs) && ys[j] in multiset(xs);
      var a :| 0 <= a < |xs| && xs[a] == ys[i];
      var b :| 0 <= b < |xs| && xs[b] == ys[j];
      UniqueCount(xs, a);
      CountOneApart(ys, i, j);
    }
  }

  lemma UniqueCount(xs: seq<WebformSub>, a: nat)
    requires UniqueSids(xs) && a < |xs|
    ensures multiset(xs)[xs[a]] == 1
  {
    assert xs == xs[..a] + [xs[a]] + xs[a + 1..];
    assert xs[a] !in xs[..a];
    assert xs[a] !in xs[a + 1..];
  }

  lemma CountOneApart(ys: seq<WebformSub>, i: nat, j: nat)
    requires i < j < |ys| && multiset(ys)[ys[i]] == 1
    ensures ys[i] != ys[j]
  {
    assert ys == ys[..i] + [ys[i]] + ys[i + 1..j] + [ys[j]] + ys[j + 1..];
  }

  /** With distinct submission ids, no submission is targeted twice. */
  lemma TargetRowsUnique(subs: seq<WebformSub>, watermark: int, count: int)
    requires UniqueSids(subs)
    ensures UniqueSids(TargetRows(subs, watermark, count))
  {
    EligibleUnique(subs, watermark);
    PermutationUnique(Eligible(subs, watermark), SortByChanged(Eligible(subs, watermark)));
  }

  // ---------------------------------------------------------------------
  // Copying

  /** MAX(sid) over the LTS store; 0 for an empty store (`?? 0`). */
  ghost function MaxSid(ids: set<nat>): (r: nat)
    ensures ids == {} ==> r == 0
    ensures ids != {} ==> r in ids
    ensures forall k :: k in ids ==> k <= r
    decreases ids
  {
    if ids == {} then 0
    else
      var x :| x in ids;
      var m := MaxSid(ids - {x});
      assert forall k :: k in ids ==> k == x || k in ids - {x};
      if x > m then x else m
  }

  /** The maximum is the only bound that belongs to the set (or is 0 for the empty set). */
  lemma MaxSidIs(ids: set<nat>, r: nat)
    requires ids == {} ==> r == 0
    requires ids != {} ==> r in ids
    requires forall k :: k in ids ==> k <= r
    ensures r == MaxSid(ids)
  {
  }

  /** `findLatestUpdateTimestamp`: the stored watermark, 0 when unset. */
  function LastChange(watermark: Option<int>): int
  {
    match watermark
    case None => 0
    case Some(t) => t
  }

  /** `load($sid)`: the stored submission with that id, if any. */
  function Load(subs: seq<WebformSub>, sid: nat): (r: Option<WebformSub>)
    ensures r.Some? ==> r.value in subs && r.value.sid == sid
    ensures r.None? ==> forall s :: s in subs ==> s.sid != sid
  {
    if subs == [] then None else if subs[0].sid == sid then Some(subs[0]) else Load(subs[1..], sid)
  }

  /** The submission after `PIIRedactor::redact`, or None when that raised a type error. */
  function RedactedCopy(sub: WebformSub): Option<WebformSub>
  {
    var red := PiiRedactor.RedactionOf(sub.elements, sub.data, sub.notes);
    if red.outcome.TypeError? then None else Some(sub.(data := red.data, notes := red.notes))
  }

  /** `load` then `PIIRedactor::redact`: the copy to write, or None when either throws. */
  function Prepared(subs: seq<WebformSub>, sid: nat): Option<WebformSub>
  {
    match Load(subs, sid)
    case None => None
    case Some(sub) => RedactedCopy(sub)
  }

  /** What loading and redacting yields for each target, in target order. */
  function Prepare(subs: seq<WebformSub>, targets: seq<nat>): (r: seq<Option<WebformSub>>)
    ensures |r| == |targets| && forall i :: 0 <= i < |targets| ==> r[i] == Prepared(subs, targets[i])
  {
    if targets == [] then []
    else Prepare(subs, targets[..|targets| - 1]) + [Prepared(subs, targets[|targets| - 1])]
  }

  /** One `resave` call on the LTS storage, with whether `enforceIsNew` was applied. */
  datatype Resave = Resave(sid: nat, enforcedNew: bool)

  /** What the copier changes: the LTS store, the resave calls made, the watermark. */
  datatype State = State(lts: map<nat, WebformSub>, resaves: seq<Resave>, watermark: Option<int>)

  /**
   * The transaction around `resave`: rolled back, and FALSE, when the LTS
   * refuses the write. Without `enforceIsNew` the storage saves by an
   * UPDATE on the id, which stores nothing when the id is absent from the
   * LTS, and the write still succeeds.
   */
  function Write(rejects: set<nat>, st: State, sid: nat, isNew: bool, copy: WebformSub): (State, bool)
  {
    var logged := st.(resaves := st.resaves + [Resave(sid, isNew)]);
    if sid in rejects then (logged, false)
    else if !isNew && sid !in st.lts then (logged, true)
    else (logged.(lts := st.lts[sid := copy]), true)
  }

  /** `copySub`: None when loading or redacting throws, else the write and its outcome. */
  function CopySubOf(subs: seq<WebformSub>, rejects: set<nat>, st: State, sid: nat, isNew: bool): (State, Option<bool>)
  {
    match Prepared(subs, sid)
    case None => (st, None)
    case Some(copy) =>
      var (next, ok) := Write(rejects, st, sid, isNew, copy);
      (next, Some(ok))
  }

  /** The copy loop so far: the state, the results, and the id whose copy threw, if one did. */
  datatype Run = Run(state: State, results: seq<(nat, bool)>, aborted: Option<nat>)

  /**
   * `copy`'s loop over `targets`, given what loading and redacting yields
   * for each (`copies`); a target is new when its id exceeds `last`.
   */
  function CopyRun(rejects: set<nat>, st: State, targets: seq<nat>, copies: seq<Option<WebformSub>>, last: int): Run
    requires |copies| == |targets|
  {
    if targets == [] then Run(st, [], None)
    else
      var n := |targets| - 1;
      var prev := CopyRun(rejects, st, targets[..n], copies[..n], last);
      if prev.aborted.Some? then prev
      else
        match copies[n]
        case None => Run(prev.state, prev.results, Some(targets[n]))
        case Some(copy) =>
          var (next, ok) := Write(rejects, prev.state, targets[n], targets[n] > last, copy);
          Run(next, prev.results + [(targets[n], ok)], None)
  }

  /** What `copy` returns: one result per target, or the id whose copy threw. */
  datatype CopyOutcome = Completed(results: seq<(nat, bool)>) | Aborted(sid: nat)

  /**
   * `copy($count)` as a whole: the targets past the watermark, the loop,
   * then the watermark moved to the `changed` time of the last target
   * when there was one.
   */
  ghost function CopyOf(subs: seq<WebformSub>, rejects: set<nat>, st: State, count: int): (State, CopyOutcome)
  {
    var targets := Targets(subs, LastChange(st.watermark), count);
    var run := CopyRun(rejects, st, targets, Prepare(subs, targets), MaxSid(st.lts.Keys));
    if run.aborted.Some? then (run.state, Aborted(run.aborted.value))
    else if run.results == [] then (run.state, Completed([]))
    else
      var lastSid := run.results[|run.results| - 1].0;
      match Load(subs, lastSid)
      case None => (run.state, Aborted(lastSid))
      case Some(sub) => (run.state.(watermark := Some(sub.changed)), Completed(run.results))
  }

  class Copier {
    /** The webform submission storage. */
    const subs: seq<WebformSub>
    /** The ids whose LTS write fails. */
    const rejects: set<nat>
    var lts: map<nat, WebformSub>
    var resaves: seq<Resave>
    /** The key-value store's LAST_CHANGE_TIMESTAMP entry. */
    var watermark: Option<int>

    constructor(subs: seq<WebformSub>, rejects: set<nat>, lts: map<nat, WebformSub>, watermark: Option<int>)
      ensures this.subs == subs && this.rejects == rejects
      ensures this.lts == lts && this.resaves == [] && this.watermark == watermark
    {
      this.subs := subs;
      this.rejects := rejects;
      this.lts := lts;
      this.resaves := [];
      this.watermark := watermark;
    }

    function Snapshot(): State
      reads this
    {
      State(lts, resaves, watermark)
    }

    method FindLastCopiedSubId() returns (r: nat)
      ensures lts.Keys == {} ==> r == 0
      ensures lts.Keys != {} ==> r in lts.Keys
      ensures forall k :: k in lts.Keys ==> k <= r
    {
      r := 0;
      var left := lts.Keys;
      while left != {}
        invariant left <= lts.Keys
        invariant forall k :: k in lts.Keys && k !in left ==> k <= r
        invariant r == 0 || r in lts.Keys
        decreases left
      {
        var k :| k in left;
        if k > r {
          r := k;
        }
        left := left - {k};
      }
    }

    method FindLatestUpdateTimestamp() returns (ts: int)
      ensures watermark.None? ==> ts == 0
      ensures watermark.Some? ==> ts == watermark.value
    {
      ts := LastChange(watermark);
    }

    method FindCopyTargets(count: int) returns (targets: seq<nat>)
      ensures targets == Targets(subs, LastChange(watermark), count)
    {
      var ts := FindLatestUpdateTimestamp();
      targets := Targets(subs, ts, count);
    }

    method CopySub(sid: nat, isNew: bool) returns (ok: Option<bool>)
      modifies this`lts, this`resaves
      ensures (Snapshot(), ok) == CopySubOf(subs, rejects, old(Snapshot()), sid, isNew)
    {
      var loaded := Load(subs, sid);
      if loaded.None? {
        return None;
      }
      var sub := loaded.value;
      var record := new PiiRedactor.Submission(sub.elements, sub.data, sub.notes);
      var outcome := PiiRedactor.Redact(record);
      if outcome.TypeError? {
        return None;
      }
      var copy := sub.(data := record.data, notes := record.notes);
      resaves := resaves + [Resave(sid, isNew)];
      if sid in rejects {
        ok := Some(false);
      } else if !isNew && sid !in lts {
        ok := Some(true);
      } else {
        lts := lts[sid := copy];
        ok := Some(true);
      }
    }

    /** Moves the watermark to the last result's `changed` time; false when that submission cannot be loaded. */
    method SetLatestUpdateTimestamp(results: seq<(nat, bool)>) returns (loaded: bool)
      requires results != []
      modifies this`watermark
      ensures var sub := Load(subs, results[|results| - 1].0);
        loaded == sub.Some? &&
        watermark == if sub.Some? then Some(sub.value.changed) else old(watermark)
    {
      var sub := Load(subs, results[|results| - 1].0);
      if sub.None? {
        return false;
      }
      watermark := Some(sub.value.changed);
      loaded := true;
    }

    /** `copy`'s foreach: copies the targets in order until one throws. */
    method CopyEach(targets: seq<nat>, last: int) returns (results: seq<(nat, bool)>, aborted: Option<nat>)
      modifies this`lts, this`resaves
      ensures CopyRun(rejects, old(Snapshot()), targets, Prepare(subs, targets), last) == Run(Snapshot(), results, aborted)
    {
      ghost var st0 := Snapshot();
      ghost var copies := Prepare(subs, targets);
      results := [];
      var i := 0;
      while i < |targets|
        invariant 0 <= i <= |targets|
        invariant watermark == st0.watermark
        invariant CopyRun(rejects, st0, targets[..i], copies[..i], last) == Run(Snapshot(), results, None)
      {
        var sid := targets[i];
        ghost var before := Snapshot();
        CopyRunSnoc(rejects, st0, targets, copies, last, i);
        var ok := CopySub(sid, sid > last);
        assert (Snapshot(), ok) == CopySubOf(subs, rejects, before, sid, sid > last);
        assert copies[i] == Prepared(subs, sid);
        if ok.None? {
          CopyRunStopped(rejects, st0, targets, copies, last, i + 1);
          return results, Some(sid);
        }
        results := results + [(sid, ok.value)];
        i := i + 1;
      }
      assert targets[..|targets|] == targets && copies[..|copies|] == copies;
      aborted := None;
    }

    method Copy(count: int) returns (outcome: CopyOutcome)
      modifies this`lts, this`resaves, this`watermark
      ensures (Snapshot(), outcome) == CopyOf(subs, rejects, old(Snapshot()), count)
    {
      var last := FindLastCopiedSubId();
      MaxSidIs(lts.Keys, last);
      var targets := FindCopyTargets(count);
      var results, aborted := CopyEach(targets, last);
      if aborted.Some? {
        return Aborted(aborted.value);
      }
      var hasCopied := results != [];
      if hasCopied {
        var loaded := SetLatestUpdateTimestamp(results);
        if !loaded {
          return Aborted(results[|results| - 1].0);
        }
      }
      outcome := Completed(results);
    }
  }

  lemma CopyRunSnoc(rejects: set<nat>, st: State, targets: seq<nat>, copies: seq<Option<WebformSub>>, last: int, i: nat)
    requires i < |targets| == |copies|
    ensures var prev := CopyRun(rejects, st, targets[..i], copies[..i], last);
      prev.aborted.None? ==>
        CopyRun(rejects, st, targets[..i + 1], copies[..i + 1], last) ==
          match copies[i]
          case None => Run(prev.state, prev.results, Some(targets[i]))
          case Some(copy) =>
            var (next, ok) := Write(rejects, prev.state, targets[i], targets[i] > last, copy);
            Run(next, prev.results + [(targets[i], ok)], None)
  {
    assert targets[..i + 1][..i] == targets[..i];
    assert copies[..i + 1][..i] == copies[..i];
  }

  /** Once a copy has thrown, the rest of the loop never runs. */
  lemma {:induction false} CopyRunStopped(rejects: set<nat>, st: State, targets: seq<nat>, copies: seq<Option<WebformSub>>, last: int, n: nat)
    requires n <= |targets| == |copies| && CopyRun(rejects, st, targets[..n], copies[..n], last).aborted.Some?
    ensures CopyRun(rejects, st, targets, copies, last) == CopyRun(rejects, st, targets[..n], copies[..n], last)
    decreases |targets| - n
  {
    if n < |targets| {
      assert targets[..n + 1][..n] == targets[..n];
      assert copies[..n + 1][..n] == copies[..n];
      CopyRunStopped(rejects, st, targets, copies, last, n + 1);
    } else {
      assert targets[..n] == targets && copies[..n] == copies;
    }
  }

  // ---------------------------------------------------------------------
  // What a copy run does

  /**
   * A run that did not abort gives one result per target, in target order,
   * TRUE exactly when the LTS accepted the write; it makes one `resave` per
   * target, with `enforceIsNew` exactly for the ids above `last`; it never
   * touches the watermark.
   */
  lemma {:induction false} CopyRunResults(rejects: set<nat>, st: State, targets: seq<nat>, copies: seq<Option<WebformSub>>, last: int)
    requires |copies| == |targets|
    ensures var run := CopyRun(rejects, st, targets, copies, last);
      run.state.watermark == st.watermark &&
      (run.aborted.None? ==>
        |run.results| == |targets| &&
        (forall i :: 0 <= i < |targets| ==> run.results[i] == (targets[i], targets[i] !in rejects)) &&
        |run.state.resaves| == |st.resaves| + |targets| &&
        run.state.resaves[..|st.resaves|] == st.resaves &&
        (forall i :: 0 <= i < |targets| ==> run.state.resaves[|st.resaves| + i] == Resave(targets[i], targets[i] > last)))
    decreases |targets|
  {
    if targets != [] {
      var n := |targets| - 1;
      CopyRunResults(rejects, st, targets[..n], copies[..n], last);
      var prev := CopyRun(rejects, st, targets[..n], copies[..n], last);
      var run := CopyRun(rejects, st, targets, copies, last);
      if run.aborted.None? {
        assert prev.aborted.None? && copies[n].Some?;
        assert run.results == prev.results + [(targets[n], targets[n] !in rejects)];
        assert run.state.resaves == prev.state.resaves + [Resave(targets[n], targets[n] > last)];
        forall i | 0 <= i < |targets|
          ensures run.results[i] == (targets[i], targets[i] !in rejects)
          ensures run.state.resaves[|st.resaves| + i] == Resave(targets[i], targets[i] > last)
        {
          if i < n {
            assert run.results[i] == prev.results[i];
            assert run.state.resaves[|st.resaves| + i] == prev.state.resaves[|st.resaves| + i];
          }
        }
      }
    }
  }

  /** The run aborts exactly when some target cannot be loaded or redacted, and then names the first such target. */
  lemma {:induction false} CopyRunAborts(rejects: set<nat>, st: State, targets: seq<nat>, copies: seq<Option<WebformSub>>, last: int)
    requires |copies| == |targets|
    ensures var run := CopyRun(rejects, st, targets, copies, last);
      (run.aborted.None? <==> forall i :: 0 <= i < |targets| ==> copies[i].Some?) &&
      (run.aborted.Some? ==>
        exists i :: 0 <= i < |targets| && targets[i] == run.aborted.value && copies[i].None? &&
          forall j :: 0 <= j < i ==> copies[j].Some?)
    decreases |targets|
  {
    if targets != [] {
      var n := |targets| - 1;
      CopyRunAborts(rejects, st, targets[..n], copies[..n], last);
      assert forall j :: 0 <= j < n ==> copies[..n][j] == copies[j] && targets[..n][j] == targets[j];
    }
  }

  /** Whether a write of `sid` reaches the store: a new entity, or the update of a stored one. */
  predicate Stores(st: State, sid: nat, last: int)
  {
    sid > last || sid in st.lts
  }

  /**
   * After a run that did not abort, over distinct targets, the LTS store
   * holds the prepared copy of every accepted target that is new or was
   * already stored, and every other id keeps its old entry (or stays
   * absent): an accepted update of an id missing from the LTS stores nothing.
   */
  lemma {:induction false} CopyRunStore(rejects: set<nat>, st: State, targets: seq<nat>, copies: seq<Option<WebformSub>>, last: int)
    requires |copies| == |targets|
    requires forall a, b :: 0 <= a < b < |targets| ==> targets[a] != targets[b]
    ensures var run := CopyRun(rejects, st, targets, copies, last);
      run.aborted.None? ==>
        (forall k :: 0 <= k < |targets| && targets[k] !in rejects && Stores(st, targets[k], last) ==>
          targets[k] in run.state.lts && Some(run.state.lts[targets[k]]) == copies[k]) &&
        (forall sid :: sid !in targets || sid in rejects || !Stores(st, sid, last) ==>
          (sid in run.state.lts <==> sid in st.lts) && (sid in st.lts ==> run.state.lts[sid] == st.lts[sid]))
    decreases |targets|
  {
    if targets != [] {
      var n := |targets| - 1;
      CopyRunStore(rejects, st, targets[..n], copies[..n], last);
      var prev := CopyRun(rejects, st, targets[..n], copies[..n], last);
      var run := CopyRun(rejects, st, targets, copies, last);
      if run.aborted.None? {
        assert prev.aborted.None? && copies[n].Some?;
        assert targets[n] !in targets[..n];
        assert targets[n] in prev.state.lts <==> targets[n] in st.lts;
        assert run.state.lts == if targets[n] in rejects || !Stores(st, targets[n], last) then prev.state.lts
          else prev.state.lts[targets[n] := copies[n].value];
        forall k | 0 <= k < |targets| && targets[k] !in rejects && Stores(st, targets[k], last)
          ensures targets[k] in run.state.lts && Some(run.state.lts[targets[k]]) == copies[k]
        {
          if k < n {
            assert targets[..n][k] == targets[k] && copies[..n][k] == copies[k];
          }
        }
        forall sid | sid !in targets || sid in rejects || !Stores(st, sid, last)
          ensures (sid in run.state.lts <==> sid in st.lts) && (sid in st.lts ==> run.state.lts[sid] == st.lts[sid])
        {
          assert sid !in targets[..n] || sid in rejects || !Stores(st, sid, last);
        }
      }
    }
  }

  /**
   * An accepted update of an id the LTS does not hold reports success and
   * stores nothing: the copy of such a submission is lost while `copy`
   * returns TRUE for it.
   */
  lemma UpdateOfMissingIdStoresNothing(rejects: set<nat>, st: State, sid: nat, copy: WebformSub)
    requires sid !in rejects && sid !in st.lts
    ensures Write(rejects, st, sid, false, copy).1
    ensures Write(rejects, st, sid, false, copy).0.lts == st.lts
    ensures sid !in Write(rejects, st, sid, false, copy).0.lts
  {
  }

  /** With distinct submission ids, loading the id of a stored submission returns it. */
  lemma {:induction false} LoadStored(subs: seq<WebformSub>, s: WebformSub)
    requires UniqueSids(subs) && s in subs
    ensures Load(subs, s.sid) == Some(s)
  {
    if subs[0] != s {
      assert s in subs[1..];
      assert subs[0].sid != s.sid by {
        var j :| 0 <= j < |subs| && subs[j] == s;
      }
      LoadStored(subs[1..], s);
    }
  }

  // ---------------------------------------------------------------------
  // What `copy` does

  /** A sorted list is left as it is by the sort. */
  lemma {:induction false} SortSorted(xs: seq<WebformSub>)
    requires SortedByChanged(xs)
    ensures SortByChanged(xs) == xs
  {
    if xs != [] {
      SortSorted(xs[1..]);
      assert xs == [xs[0]] + xs[1..];
    }
  }

  /** When every stored submission qualifies, all of them are eligible, in storage order. */
  lemma {:induction false} EligibleAll(subs: seq<WebformSub>, watermark: int)
    requires forall i :: 0 <= i < |subs| ==> Qualifies(subs[i], watermark)
    ensures Eligible(subs, watermark) == subs
  {
    if subs != [] {
      EligibleAll(subs[1..], watermark);
      assert subs == [subs[0]] + subs[1..];
    }
  }

  /**
   * `copy` is its loop over the prepared copies of the targets, followed,
   * when the loop completed with results, by moving the watermark to the
   * last target row's `changed` time: with distinct ids that row always
   * loads.
   */
  lemma CopyOfShape(subs: seq<WebformSub>, rejects: set<nat>, st: State, count: int)
    requires UniqueSids(subs)
    ensures var rows := TargetRows(subs, LastChange(st.watermark), count);
      var targets := Targets(subs, LastChange(st.watermark), count);
      var run := CopyRun(rejects, st, targets, Prepare(subs, targets), MaxSid(st.lts.Keys));
      CopyOf(subs, rejects, st, count) ==
        if run.aborted.Some? then (run.state, Aborted(run.aborted.value))
        else if rows == [] then (run.state, Completed([]))
        else (run.state.(watermark := Some(rows[|rows| - 1].changed)), Completed(run.results))
  {
    var w := LastChange(st.watermark);
    var targets := Targets(subs, w, count);
    var rows := TargetRows(subs, w, count);
    var copies := Prepare(subs, targets);
    var last := MaxSid(st.lts.Keys);
    CopyRunResults(rejects, st, targets, copies, last);
    var run := CopyRun(rejects, st, targets, copies, last);
    if run.aborted.None? && rows != [] {
      var r := rows[|rows| - 1];
      TargetRowsQualify(subs, w, count);
      assert r in rows;
      LoadStored(subs, r);
      assert run.results[|run.results| - 1].0 == r.sid;
    }
  }

  /**
   * `copy` completes exactly when every target loads and redacts; an
   * aborted copy names a target and leaves the watermark alone.
   */
  lemma CopyCompletes(subs: seq<WebformSub>, rejects: set<nat>, st: State, count: int)
    requires UniqueSids(subs)
    ensures var targets := Targets(subs, LastChange(st.watermark), count);
      var (next, out) := CopyOf(subs, rejects, st, count);
      (out.Completed? <==> forall i :: 0 <= i < |targets| ==> Prepared(subs, targets[i]).Some?) &&
      (out.Aborted? ==> next.watermark == st.watermark && out.sid in targets)
  {
    var targets := Targets(subs, LastChange(st.watermark), count);
    var copies := Prepare(subs, targets);
    var last := MaxSid(st.lts.Keys);
    CopyOfShape(subs, rejects, st, count);
    CopyRunResults(rejects, st, targets, copies, last);
    CopyRunAborts(rejects, st, targets, copies, last);
  }

  /**
   * A completed `copy` returns one result per target, in order, TRUE
   * exactly when the LTS accepted the write, and logs one `resave` per
   * target with `enforceIsNew` exactly for ids above the last copied id.
   */
  lemma CopyResults(subs: seq<WebformSub>, rejects: set<nat>, st: State, count: int)
    requires UniqueSids(subs)
    ensures var targets := Targets(subs, LastChange(st.watermark), count);
      var last := MaxSid(st.lts.Keys);
      var (next, out) := CopyOf(subs, rejects, st, count);
      out.Completed? ==>
        |out.results| == |targets| &&
        (forall i :: 0 <= i < |targets| ==> out.results[i] == (targets[i], targets[i] !in rejects)) &&
        |next.resaves| == |st.resaves| + |targets| && next.resaves[..|st.resaves|] == st.resaves &&
        (forall i :: 0 <= i < |targets| ==> next.resaves[|st.resaves| + i] == Resave(targets[i], targets[i] > last))
  {
    var targets := Targets(subs, LastChange(st.watermark), count);
    CopyOfShape(subs, rejects, st, count);
    CopyRunResults(rejects, st, targets, Prepare(subs, targets), MaxSid(st.lts.Keys));
  }

  /**
   * After a completed `copy` the watermark is the last target row's
   * `changed` time, or unchanged when there was no target.
   */
  lemma CopyWatermark(subs: seq<WebformSub>, rejects: set<nat>, st: State, count: int)
    requires UniqueSids(subs)
    ensures var rows := TargetRows(subs, LastChange(st.watermark), count);
      var (next, out) := CopyOf(subs, rejects, st, count);
      out.Completed? ==> next.watermark == if rows == [] then st.watermark else Some(rows[|rows| - 1].changed)
  {
    var targets := Targets(subs, LastChange(st.watermark), count);
    CopyOfShape(subs, rejects, st, count);
    CopyRunResults(rejects, st, targets, Prepare(subs, targets), MaxSid(st.lts.Keys));
  }

  /**
   * A completed copy with at least one target moves the watermark strictly
   * forward, to a time no earlier than any target's.
   */
  lemma CopyAdvancesWatermark(subs: seq<WebformSub>, rejects: set<nat>, st: State, count: int)
    requires UniqueSids(subs)
    ensures var rows := TargetRows(subs, LastChange(st.watermark), count);
      var (next, out) := CopyOf(subs, rejects, st, count);
      out.Completed? && rows != [] ==>
        next.watermark.Some? && next.watermark.value > LastChange(st.watermark) &&
        forall r :: r in rows ==> r.changed <= next.watermark.value
  {
    CopyWatermark(subs, rejects, st, count);
    TargetRowsLast(subs, LastChange(st.watermark), count);
  }

  /** The last target row changed after the watermark and no earlier than any other target row. */
  lemma TargetRowsLast(subs: seq<WebformSub>, watermark: int, count: int)
    ensures var rows := TargetRows(subs, watermark, count);
      rows != [] ==>
        rows[|rows| - 1].changed > watermark && forall r :: r in rows ==> r.changed <= rows[|rows| - 1].changed
  {
    var rows := TargetRows(subs, watermark, count);
    TargetRowsQualify(subs, watermark, count);
    TargetRowsSorted(subs, watermark, count);
    if rows != [] {
      assert rows[|rows| - 1] in rows;
    }
  }

  /**
   * A submission left out of a capped batch that changed at the same time
   * as the batch's last target is not eligible under the new watermark, so
   * no later batch of any size selects it: the query wants `changed`
   * strictly greater than the watermark.
   */
  lemma LeftOutTieNeverSelected(subs: seq<WebformSub>, watermark: int, count: int, s: WebformSub)
    requires s in subs && Qualifies(s, watermark)
    requires s !in TargetRows(subs, watermark, count)
    requires var rows := TargetRows(subs, watermark, count);
      rows != [] && s.changed == rows[|rows| - 1].changed
    ensures var rows := TargetRows(subs, watermark, count);
      s !in Eligible(subs, rows[|rows| - 1].changed)
  {
  }

  /**
   * Two submissions changed in the same second and a batch of one: one is
   * copied (storage order picks the first here) and the other is no longer
   * eligible afterwards, until it changes again.
   */
  lemma TieLeftBehind(subs: seq<WebformSub>)
    requires |subs| == 2 && subs[0].sid == 1 && subs[1].sid == 2
    requires forall i :: 0 <= i < 2 ==> subs[i].changed == 5 && !subs[i].inDraft
    ensures TargetRows(subs, 0, 1) == subs[..1]
    ensures subs[1] !in Eligible(subs, 5)
  {
    EligibleAll(subs, 0);
    SortSorted(subs);
  }

  // ---------------------------------------------------------------------
  // The deploy hook

  const MissingDatabaseMessage: string := "The LocalGov Forms LTS database must exist for this module to function."

  /** What the hook returns: the error text, the copy results behind its feedback, or the id whose copy threw. */
  datatype HookResult = MissingDatabase(message: string) | Feedback(results: seq<(nat, bool)>) | Failed(sid: nat)

  /** `$sandbox['#finished']`: 1 once a batch comes back short of the limit. */
  function FinishedFlag(results: seq<(nat, bool)>): Value
  {
    Int(if |results| < CopyLimit then 1 else 0)
  }

  /**
   * `localgov_forms_lts_deploy_copy_webform_subs`: without the LTS database
   * it only returns the error text; otherwise it runs one `copy()` with the
   * default limit and records in the sandbox whether the batch finished.
   */
  method DeployCopyWebformSubs(hasDb: bool, copier: Copier, sandbox: Entries) returns (result: HookResult, sandboxOut: Entries)
    modifies copier`lts, copier`resaves, copier`watermark
    ensures !hasDb ==>
      result == MissingDatabase(MissingDatabaseMessage) && sandboxOut == sandbox && copier.Snapshot() == old(copier.Snapshot())
    ensures hasDb ==>
      var (next, out) := CopyOf(copier.subs, copier.rejects, old(copier.Snapshot()), CopyLimit);
      copier.Snapshot() == next &&
      (out.Aborted? ==> result == Failed(out.sid) && sandboxOut == sandbox) &&
      (out.Completed? ==> result == Feedback(out.results) && sandboxOut == Put(sandbox, StrKey("#finished"), FinishedFlag(out.results)))
  {
    if !hasDb {
      return MissingDatabase(MissingDatabaseMessage), sandbox;
    }
    var outcome := copier.Copy(CopyLimit);
    if outcome.Aborted? {
      return Failed(outcome.sid), sandbox;
    }
    sandboxOut := Put(sandbox, StrKey("#finished"), FinishedFlag(outcome.results));
    result := Feedback(outcome.results);
  }

  /**
   * An unfinished batch copied exactly `COPY_LIMIT` submissions and moved
   * the watermark strictly forward; a finished one left no eligible
   * submission behind.
   */
  lemma DeployBatches(subs: seq<WebformSub>, rejects: set<nat>, st: State)
    requires UniqueSids(subs)
    ensures var (next, out) := CopyOf(subs, rejects, st, CopyLimit);
      out.Completed? ==>
        (FinishedFlag(out.results) == Int(0) ==>
          |out.results| == CopyLimit && next.watermark.Some? && next.watermark.value > LastChange(st.watermark)) &&
        (FinishedFlag(out.results) == Int(1) ==>
          forall s :: s in subs && Qualifies(s, LastChange(st.watermark)) ==> s in TargetRows(subs, LastChange(st.watermark), CopyLimit))
  {
    var w := LastChange(st.watermark);
    CopyResults(subs, rejects, st, CopyLimit);
    CopyAdvancesWatermark(subs, rejects, st, CopyLimit);
    TargetRowsCount(subs, w, CopyLimit);
    forall s | s in subs && Qualifies(s, w) && s !in TargetRows(subs, w, CopyLimit)
      ensures |TargetRows(subs, w, CopyLimit)| == CopyLimit
    {
      TargetRowsLeftOut(subs, w, CopyLimit, s);
    }
  }

  // ---------------------------------------------------------------------
  // The copier's unit test

  /**
   * Last copied id 99, targets 99, 100 and 101 of a webform with no
   * elements: three results and three resaves, with `enforceIsNew` only
   * for 100 and 101.
   */
  lemma LtsCopyUnitTest(subs: seq<WebformSub>, st: State)
    requires |subs| == 3
    requires forall i :: 0 <= i < 3 ==>
      subs[i].sid == 99 + i && subs[i].changed == i + 1 && !subs[i].inDraft && subs[i].elements == []
    requires st.lts.Keys == {99} && st.resaves == [] && st.watermark == None
    ensures var (next, out) := CopyOf(subs, {}, st, CopyLimit);
      out.Completed? && |out.results| == 3 && |next.resaves| == 3 &&
      (forall i :: 0 <= i < 3 ==> out.results[i] == (99 + i, true) && next.resaves[i] == Resave(99 + i, i > 0)) &&
      next.watermark == Some(3)
  {
    var targets := UnitTestTargets(subs);
    MaxSidIs(st.lts.Keys, 99);
    UnitTestCompletes(subs, st);
    CopyResults(subs, {}, st, CopyLimit);
    CopyWatermark(subs, {}, st, CopyLimit);
  }

  /** Every target of the unit test loads and redacts, so its copy completes. */
  lemma UnitTestCompletes(subs: seq<WebformSub>, st: State)
    requires |subs| == 3
    requires forall i :: 0 <= i < 3 ==>
      subs[i].sid == 99 + i && subs[i].changed == i + 1 && !subs[i].inDraft && subs[i].elements == []
    requires st.watermark == None
    ensures CopyOf(subs, {}, st, CopyLimit).1.Completed?
  {
    var targets := UnitTestTargets(subs);
    forall i | 0 <= i < |targets|
      ensures Prepared(subs, targets[i]).Some?
    {
      PreparedUnchanged(subs, subs[i]);
    }
    CopyCompletes(subs, {}, st, CopyLimit);
  }

  /** A stored submission of a webform with no elements is copied as it is. */
  lemma PreparedUnchanged(subs: seq<WebformSub>, s: WebformSub)
    requires UniqueSids(subs) && s in subs && s.elements == []
    ensures Prepared(subs, s.sid) == Some(s)
  {
    LoadStored(subs, s);
    PiiRedactor.NothingToRedact(s.elements, s.data, s.notes);
  }

  /** When every stored submission qualifies, they are already sorted and the batch is large enough, the query returns them all, in storage order. */
  lemma TargetRowsAll(subs: seq<WebformSub>, watermark: int, count: int)
    requires forall i :: 0 <= i < |subs| ==> Qualifies(subs[i], watermark)
    requires SortedByChanged(subs)
    requires count > -1 ==> count >= |subs|
    ensures TargetRows(subs, watermark, count) == subs
  {
    EligibleAll(subs, watermark);
    SortSorted(subs);
  }

  /** The unit test's targets: all three submissions, in storage order. */
  lemma UnitTestTargets(subs: seq<WebformSub>) returns (targets: seq<nat>)
    requires |subs| == 3
    requires forall i :: 0 <= i < 3 ==>
      subs[i].sid == 99 + i && subs[i].changed == i + 1 && !subs[i].inDraft
    ensures UniqueSids(subs)
    ensures TargetRows(subs, 0, CopyLimit) == subs
    ensures targets == Targets(subs, 0, CopyLimit)
    ensures |targets| == 3 && forall i :: 0 <= i < 3 ==> targets[i] == subs[i].sid == 99 + i
  {
    assert forall i :: 0 <= i < |subs| ==> Qualifies(subs[i], 0);
    assert SortedByChanged(subs);
    TargetRowsAll(subs, 0, CopyLimit);
    targets := Sids(subs);
  }
}
