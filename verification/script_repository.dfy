/** The script repository: which change scripts a deployment run must apply.

    The available scripts (in the order the script provider lists them) and the
    applied change entries (the change log) are both inputs here; fetching them is
    left to their providers. */
module ScriptRepository {
  import opened Wrappers
  import opened ChangeOrder
  import opened Changes
  import opened Sequences

  /** Position `i` holds the first entry of `applied` that compares equal to `key`. */
  predicate FirstMatchAt(applied: seq<ChangeEntry>, key: ChangeKey, i: int) {
    && 0 <= i < |applied|
    && Compare(applied[i].key, key) == 0
    && forall j :: 0 <= j < i ==> Compare(applied[j].key, key) != 0
  }

  /** The applied entry for a script: the first entry comparing equal to it, or
      None when the log holds no such entry (`FirstOrDefault`). */
  function FindApplied(applied: seq<ChangeEntry>, key: ChangeKey): Option<ChangeEntry>
    decreases |applied|
  {
    if |applied| == 0 then None
    else if Compare(applied[0].key, key) == 0 then Some(applied[0])
    else FindApplied(applied[1..], key)
  }

  /** The lookup answers None exactly when no entry compares equal to the key, and
      otherwise the entry at the first position that does. */
  lemma {:induction false} FindAppliedFirstMatch(applied: seq<ChangeEntry>, key: ChangeKey)
    ensures FindApplied(applied, key).None? <==>
            forall i :: 0 <= i < |applied| ==> Compare(applied[i].key, key) != 0
    ensures FindApplied(applied, key).Some? ==>
            exists i :: FirstMatchAt(applied, key, i) && applied[i] == FindApplied(applied, key).value
    decreases |applied|
  {
    if |applied| == 0 {
    } else if Compare(applied[0].key, key) == 0 {
      assert FirstMatchAt(applied, key, 0);
    } else {
      FindAppliedFirstMatch(applied[1..], key);
      var rest := FindApplied(applied[1..], key);
      if rest.Some? {
        var i :| FirstMatchAt(applied[1..], key, i) && applied[1..][i] == rest.value;
        assert FirstMatchAt(applied, key, i + 1);
      } else {
        forall i | 0 <= i < |applied| ensures Compare(applied[i].key, key) != 0 {
          if i > 0 {
            assert applied[i] == applied[1..][i - 1];
          }
        }
      }
    }
  }

  /** The entries of the change log whose status is `Failure`, in log order. */
  function FailedEntries(applied: seq<ChangeEntry>): (r: seq<ChangeEntry>)
    ensures IsSubsequence(r, applied)
    ensures forall e :: e in r ==> e.status == Failure
    ensures forall i :: 0 <= i < |applied| && applied[i].status == Failure ==> applied[i] in r
    ensures forall e: ChangeEntry {:trigger multiset(applied)[e]} ::
              e.status == Failure ==> multiset(r)[e] == multiset(applied)[e]
    decreases |applied|
  {
    if |applied| == 0 then []
    else
      assert applied == [applied[0]] + applied[1..];
      if applied[0].status == Failure then
        var rest := FailedEntries(applied[1..]);
        assert ([applied[0]] + rest)[1..] == rest;
        [applied[0]] + rest
      else
        FailedEntries(applied[1..])
  }

  /** A script must be applied when the log has no entry for it, or when its entry
      did not execute successfully. */
  predicate NeedsApplying(applied: seq<ChangeEntry>, key: ChangeKey) {
    match FindApplied(applied, key)
    case None => true
    case Some(e) => !e.executedSuccessfully
  }

  /** With no cap every identity is admitted; with a cap, those at or below it. */
  predicate WithinCap(cap: Option<ChangeKey>, key: ChangeKey) {
    cap.None? || AtMost(key, cap.value)
  }

  /** A script is the one that ends the walk: it must be applied but lies above the cap. */
  predicate StopsAt(cap: Option<ChangeKey>, applied: seq<ChangeEntry>, key: ChangeKey) {
    NeedsApplying(applied, key) && !WithinCap(cap, key)
  }

  /** The script as the reconciliation leaves it: when its entry exists it takes
      the entry's change id, so that the rerun updates that log row. */
  function Annotate(applied: seq<ChangeEntry>, script: ChangeScript): ChangeScript {
    match FindApplied(applied, script.key)
    case None => script
    case Some(e) => script.(changeId := e.changeId)
  }

  /** What a reconciliation produces: the pending scripts, and the whole script
      sequence as it stands afterwards (with the change ids it assigned). */
  datatype Reconciliation = Reconciliation(pending: seq<ChangeScript>, scripts: seq<ChangeScript>)

  /** The reconciliation walk over the available scripts, one script at a time.
      A skipped script is left as it is; a script to apply takes its entry's
      change id and is then appended, unless it lies above the cap, in which case
      the walk ends there and the remaining scripts are never looked at. */
  function Reconcile(cap: Option<ChangeKey>, scripts: seq<ChangeScript>, applied: seq<ChangeEntry>)
    : Reconciliation
    decreases |scripts|
  {
    if |scripts| == 0 then Reconciliation([], [])
    else
      var script := scripts[0];
      if !NeedsApplying(applied, script.key) then
        var rest := Reconcile(cap, scripts[1..], applied);
        Reconciliation(rest.pending, [script] + rest.scripts)
      else if WithinCap(cap, script.key) then
        var rest := Reconcile(cap, scripts[1..], applied);
        Reconciliation([Annotate(applied, script)] + rest.pending, [Annotate(applied, script)] + rest.scripts)
      else
        Reconciliation([], [Annotate(applied, script)] + scripts[1..])
  }

  /** The walk returns one script per script given, each keeping its identity and
      name, and picks the pending scripts from those in order. */
  lemma {:induction false} ReconcileShape(
    cap: Option<ChangeKey>, scripts: seq<ChangeScript>, applied: seq<ChangeEntry>)
    ensures var r := Reconcile(cap, scripts, applied);
            && |r.scripts| == |scripts|
            && (forall i :: 0 <= i < |scripts| ==>
                  r.scripts[i].key == scripts[i].key && r.scripts[i].scriptName == scripts[i].scriptName)
            && IsSubsequence(r.pending, r.scripts)
    decreases |scripts|
  {
    if |scripts| > 0 {
      var r := Reconcile(cap, scripts, applied);
      var rest := Reconcile(cap, scripts[1..], applied);
      if !NeedsApplying(applied, scripts[0].key) {
        ReconcileShape(cap, scripts[1..], applied);
        assert r.scripts[1..] == rest.scripts;
      } else if WithinCap(cap, scripts[0].key) {
        ReconcileShape(cap, scripts[1..], applied);
        assert r.scripts[1..] == rest.scripts;
        assert r.pending[1..] == rest.pending;
      } else {
        EmptyIsSubsequence(r.scripts);
      }
    }
  }

  /** The pending identities are picked from the given identities in order, and
      every pending script must be applied, lies within the cap, and carries its
      entry's change id; so a script whose entry succeeded is never pending. */
  lemma {:induction false} ReconcilePending(
    cap: Option<ChangeKey>, scripts: seq<ChangeScript>, applied: seq<ChangeEntry>)
    ensures var r := Reconcile(cap, scripts, applied);
            && IsSubsequence(Keys(r.pending), Keys(scripts))
            && (forall p :: p in r.pending ==> NeedsApplying(applied, p.key) && WithinCap(cap, p.key))
            && (forall p :: p in r.pending && FindApplied(applied, p.key).Some? ==>
                  p.changeId == FindApplied(applied, p.key).value.changeId)
    decreases |scripts|
  {
    if |scripts| > 0 {
      var r := Reconcile(cap, scripts, applied);
      var rest := Reconcile(cap, scripts[1..], applied);
      assert Keys(scripts)[1..] == Keys(scripts[1..]);
      if !NeedsApplying(applied, scripts[0].key) {
        ReconcilePending(cap, scripts[1..], applied);
      } else if WithinCap(cap, scripts[0].key) {
        ReconcilePending(cap, scripts[1..], applied);
        assert r.pending[1..] == rest.pending;
        assert Keys(r.pending)[1..] == Keys(rest.pending);
      } else {
        EmptyIsSubsequence(Keys(scripts));
        assert Keys([]) == [];
      }
    }
  }

  /** Reference definition of the uncapped result: every script that must be
      applied, with its change id assigned, in the given order. */
  function Candidates(applied: seq<ChangeEntry>, scripts: seq<ChangeScript>): seq<ChangeScript>
    decreases |scripts|
  {
    if |scripts| == 0 then []
    else if NeedsApplying(applied, scripts[0].key) then
      [Annotate(applied, scripts[0])] + Candidates(applied, scripts[1..])
    else
      Candidates(applied, scripts[1..])
  }

  /** The longest prefix of `scripts` whose identities are all at or below `cap`. */
  function TakeWithinCap(scripts: seq<ChangeScript>, cap: ChangeKey): (r: seq<ChangeScript>)
    ensures r <= scripts
    ensures forall p :: p in r ==> AtMost(p.key, cap)
    ensures |r| < |scripts| ==> !AtMost(scripts[|r|].key, cap)
    decreases |scripts|
  {
    if |scripts| == 0 || !AtMost(scripts[0].key, cap) then []
    else [scripts[0]] + TakeWithinCap(scripts[1..], cap)
  }

  /** Reference definition of a cap applied as a filter: every script at or below it. */
  function FilterWithinCap(scripts: seq<ChangeScript>, cap: ChangeKey): seq<ChangeScript>
    decreases |scripts|
  {
    if |scripts| == 0 then []
    else if AtMost(scripts[0].key, cap) then [scripts[0]] + FilterWithinCap(scripts[1..], cap)
    else FilterWithinCap(scripts[1..], cap)
  }

  /** The position of the script that ends the walk, if any: the first script that
      must be applied and lies above the cap. */
  function BreakIndex(cap: Option<ChangeKey>, applied: seq<ChangeEntry>, scripts: seq<ChangeScript>)
    : (b: Option<nat>)
    ensures b.Some? ==> b.value < |scripts| && StopsAt(cap, applied, scripts[b.value].key)
    ensures forall j :: 0 <= j < |scripts| && (b.None? || j < b.value) ==>
              !StopsAt(cap, applied, scripts[j].key)
    decreases |scripts|
  {
    if |scripts| == 0 then None
    else if StopsAt(cap, applied, scripts[0].key) then Some(0)
    else
      match BreakIndex(cap, applied, scripts[1..])
      case None => None
      case Some(k) => Some(k + 1)
  }

  /** The pending scripts of a run, given what the script provider lists and what
      the change log holds: with no cap, every script that must be applied; with
      a cap, the longest run of those, from the start, that stays within it. */
  function PendingExecution(cap: Option<ChangeKey>, available: seq<ChangeScript>, applied: seq<ChangeEntry>)
    : (pending: seq<ChangeScript>)
    ensures cap.None? ==> pending == Candidates(applied, available)
    ensures cap.Some? ==> pending == TakeWithinCap(Candidates(applied, available), cap.value)
  {
    if cap.None? then
      UncappedIsCandidates(available, applied);
      Reconcile(cap, available, applied).pending
    else
      CappedIsPrefixOfCandidates(cap.value, available, applied);
      Reconcile(cap, available, applied).pending
  }

  lemma {:induction false} UncappedIsCandidates(scripts: seq<ChangeScript>, applied: seq<ChangeEntry>)
    ensures Reconcile(None, scripts, applied).pending == Candidates(applied, scripts)
    decreases |scripts|
  {
    if |scripts| > 0 {
      UncappedIsCandidates(scripts[1..], applied);
    }
  }

  lemma {:induction false} CappedIsPrefixOfCandidates(
    cap: ChangeKey, scripts: seq<ChangeScript>, applied: seq<ChangeEntry>)
    ensures Reconcile(Some(cap), scripts, applied).pending
         == TakeWithinCap(Candidates(applied, scripts), cap)
    decreases |scripts|
  {
    if |scripts| > 0 {
      CappedIsPrefixOfCandidates(cap, scripts[1..], applied);
      if NeedsApplying(applied, scripts[0].key) {
        assert Annotate(applied, scripts[0]).key == scripts[0].key;
      }
    }
  }

  /** One step of the walk, read off the first script. */
  lemma ReconcileStep(cap: Option<ChangeKey>, scripts: seq<ChangeScript>, applied: seq<ChangeEntry>)
    requires |scripts| > 0
    ensures !NeedsApplying(applied, scripts[0].key) ==>
              Reconcile(cap, scripts, applied)
              == Reconciliation(Reconcile(cap, scripts[1..], applied).pending,
                                [scripts[0]] + Reconcile(cap, scripts[1..], applied).scripts)
    ensures NeedsApplying(applied, scripts[0].key) && WithinCap(cap, scripts[0].key) ==>
              Reconcile(cap, scripts, applied)
              == Reconciliation([Annotate(applied, scripts[0])] + Reconcile(cap, scripts[1..], applied).pending,
                                [Annotate(applied, scripts[0])] + Reconcile(cap, scripts[1..], applied).scripts)
    ensures StopsAt(cap, applied, scripts[0].key) ==>
              Reconcile(cap, scripts, applied)
              == Reconciliation([], [Annotate(applied, scripts[0])] + scripts[1..])
  {
  }

  /** The reconciliation loop as an imperative walk that stops with `break` at the
      first script to apply that lies above the cap. */
  method IdentifyPending(cap: Option<ChangeKey>, scripts: seq<ChangeScript>, applied: seq<ChangeEntry>)
    returns (pending: seq<ChangeScript>, updated: seq<ChangeScript>)
    ensures Reconciliation(pending, updated) == Reconcile(cap, scripts, applied)
  {
    pending := [];
    updated := [];
    var i := 0;
    while i < |scripts|
      invariant 0 <= i <= |scripts|
      invariant Reconcile(cap, scripts, applied)
             == Reconciliation(pending + Reconcile(cap, scripts[i..], applied).pending,
                               updated + Reconcile(cap, scripts[i..], applied).scripts)
    {
      var script := scripts[i];
      ghost var here := Reconcile(cap, scripts[i..], applied);
      ghost var rest := Reconcile(cap, scripts[i + 1..], applied);
      ReconcileStep(cap, scripts[i..], applied);
      assert scripts[i..][1..] == scripts[i + 1..];
      var applyScript := false;
      var entry := FindApplied(applied, script.key);
      if entry.None? {
        applyScript := true;
      } else if !entry.value.executedSuccessfully {
        script := script.(changeId := entry.value.changeId);
        applyScript := true;
      }
      assert applyScript == NeedsApplying(applied, scripts[i].key);
      assert applyScript ==> script == Annotate(applied, scripts[i]);
      if applyScript {
        if cap.None? || Compare(script.key, cap.value) <= 0 {
          assert here == Reconciliation([script] + rest.pending, [script] + rest.scripts);
          AppendShift(pending, script, rest.pending);
          AppendShift(updated, script, rest.scripts);
          pending := pending + [script];
        } else {
          assert here == Reconciliation([], [script] + scripts[i + 1..]);
          assert pending + here.pending == pending;
          AppendShift(updated, script, scripts[i + 1..]);
          updated := updated + [script] + scripts[i + 1..];
          break;
        }
      } else {
        assert here == Reconciliation(rest.pending, [script] + rest.scripts);
        AppendShift(updated, script, rest.scripts);
      }
      updated := updated + [script];
      i := i + 1;
      assert Reconcile(cap, scripts[i..], applied) == rest;
    }
    if i == |scripts| {
      assert scripts[i..] == [];
      assert pending + [] == pending && updated + [] == updated;
    }
  }
}
