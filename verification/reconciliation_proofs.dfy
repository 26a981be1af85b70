/** Properties of the reconciliation that relate several calls or hold only
    under the script provider's ordering promise. */
module ReconciliationProofs {
  import opened Wrappers
  import opened ChangeOrder
  import opened Changes
  import opened Sequences
  import opened ScriptRepository

  /** The scripts at or before the script that ends the walk are the ones the
      walk looked at. */
  predicate Examined(cap: Option<ChangeKey>, applied: seq<ChangeEntry>, scripts: seq<ChangeScript>, i: nat) {
    var b := BreakIndex(cap, applied, scripts);
    b.None? || i <= b.value
  }

  /** After the walk, a script it looked at whose entry exists but did not succeed
      carries that entry's change id and is otherwise unchanged; every other script
      (new, skipped, or past the script that ended the walk) is exactly as given. */
  lemma {:induction false} ChangeIdAssignment(
    cap: Option<ChangeKey>, applied: seq<ChangeEntry>, scripts: seq<ChangeScript>, i: nat)
    requires i < |scripts|
    ensures var e := FindApplied(applied, scripts[i].key);
            var r := Reconcile(cap, scripts, applied);
            && |r.scripts| == |scripts|
            && if Examined(cap, applied, scripts, i) && e.Some? && !e.value.executedSuccessfully
               then r.scripts[i] == scripts[i].(changeId := e.value.changeId)
               else r.scripts[i] == scripts[i]
    decreases |scripts|
  {
    ReconcileStep(cap, scripts, applied);
    ReconcileShape(cap, scripts, applied);
    var b := BreakIndex(cap, applied, scripts);
    if i == 0 {
    } else if StopsAt(cap, applied, scripts[0].key) {
      assert b == Some(0);
      assert Reconcile(cap, scripts, applied).scripts[i] == scripts[1..][i - 1];
    } else {
      ChangeIdAssignment(cap, applied, scripts[1..], i - 1);
      assert scripts[1..][i - 1] == scripts[i];
      var b' := BreakIndex(cap, applied, scripts[1..]);
      assert b'.None? ==> b.None?;
      assert b'.Some? ==> b == Some(b'.value + 1);
    }
  }

  /** The uncapped result holds exactly the scripts that must be applied, each
      with its change id assigned. */
  lemma {:induction false} CandidatesMembers(applied: seq<ChangeEntry>, scripts: seq<ChangeScript>, c: ChangeScript)
    ensures c in Candidates(applied, scripts) <==>
            exists i :: 0 <= i < |scripts| && NeedsApplying(applied, scripts[i].key)
                        && c == Annotate(applied, scripts[i])
    decreases |scripts|
  {
    if |scripts| > 0 {
      CandidatesMembers(applied, scripts[1..], c);
      if c in Candidates(applied, scripts) {
        if NeedsApplying(applied, scripts[0].key) && c == Annotate(applied, scripts[0]) {
        } else {
          assert c in Candidates(applied, scripts[1..]);
          var i :| 0 <= i < |scripts[1..]| && NeedsApplying(applied, scripts[1..][i].key)
                   && c == Annotate(applied, scripts[1..][i]);
          assert scripts[1..][i] == scripts[i + 1];
        }
      } else {
        forall i | 0 <= i < |scripts| && NeedsApplying(applied, scripts[i].key)
          ensures c != Annotate(applied, scripts[i])
        {
          if i > 0 {
            assert scripts[1..][i - 1] == scripts[i];
          }
        }
      }
    }
  }

  /** When the scripts arrive in ascending order, so do the pending ones; when they
      arrive strictly ascending, no identity is pending twice. */
  lemma PendingKeepsOrder(cap: Option<ChangeKey>, scripts: seq<ChangeScript>, applied: seq<ChangeEntry>)
    ensures Pairwise(AtMost, Keys(scripts)) ==>
              Pairwise(AtMost, Keys(PendingExecution(cap, scripts, applied)))
    ensures Pairwise(Below, Keys(scripts)) ==>
              Pairwise(Below, Keys(PendingExecution(cap, scripts, applied)))
  {
    var r := Reconcile(cap, scripts, applied);
    ReconcilePending(cap, scripts, applied);
    if Pairwise(AtMost, Keys(scripts)) {
      SubsequencePairwise(AtMost, Keys(r.pending), Keys(scripts));
    }
    if Pairwise(Below, Keys(scripts)) {
      SubsequencePairwise(Below, Keys(r.pending), Keys(scripts));
    }
  }

  lemma {:induction false} FilterAboveCapIsEmpty(scripts: seq<ChangeScript>, cap: ChangeKey)
    requires forall i :: 0 <= i < |scripts| ==> !AtMost(scripts[i].key, cap)
    ensures FilterWithinCap(scripts, cap) == []
    decreases |scripts|
  {
    if |scripts| > 0 {
      FilterAboveCapIsEmpty(scripts[1..], cap);
    }
  }

  /** On ascending scripts, stopping at the first identity above the cap keeps
      exactly the scripts that a filter by the cap would keep. */
  lemma {:induction false} SortedTakeIsFilter(scripts: seq<ChangeScript>, cap: ChangeKey)
    requires Pairwise(AtMost, Keys(scripts))
    ensures TakeWithinCap(scripts, cap) == FilterWithinCap(scripts, cap)
    decreases |scripts|
  {
    if |scripts| > 0 {
      assert Pairwise(AtMost, Keys(scripts[1..])) by {
        forall i, j | 0 <= i < j < |scripts[1..]|
          ensures AtMost(Keys(scripts[1..])[i], Keys(scripts[1..])[j])
        {
          assert Keys(scripts)[i + 1] == Keys(scripts[1..])[i];
          assert Keys(scripts)[j + 1] == Keys(scripts[1..])[j];
        }
      }
      if AtMost(scripts[0].key, cap) {
        SortedTakeIsFilter(scripts[1..], cap);
      } else {
        forall i | 0 <= i < |scripts[1..]| ensures !AtMost(scripts[1..][i].key, cap) {
          assert Keys(scripts)[0] == scripts[0].key;
          assert Keys(scripts)[i + 1] == scripts[1..][i].key;
          AboveCapStaysAbove(scripts[0].key, scripts[1..][i].key, cap);
        }
        FilterAboveCapIsEmpty(scripts[1..], cap);
      }
    }
  }

  /** Under the provider's ordering promise the cap acts as a filter: the pending
      scripts are exactly the scripts that must be applied and lie at or below it. */
  lemma SortedCapIsFilter(cap: ChangeKey, scripts: seq<ChangeScript>, applied: seq<ChangeEntry>)
    requires Pairwise(AtMost, Keys(scripts))
    ensures PendingExecution(Some(cap), scripts, applied)
         == FilterWithinCap(Candidates(applied, scripts), cap)
  {
    PendingKeepsOrder(None, scripts, applied);
    SortedTakeIsFilter(Candidates(applied, scripts), cap);
  }

  /** The failure filter distributes over a split of the change log, so it keeps
      every failed entry, in log order, and nothing else. */
  lemma {:induction false} FailedEntriesAppend(a: seq<ChangeEntry>, b: seq<ChangeEntry>)
    ensures FailedEntries(a + b) == FailedEntries(a) + FailedEntries(b)
    decreases |a|
  {
    if |a| == 0 {
      assert a + b == b;
    } else {
      var ab := a + b;
      assert ab[0] == a[0];
      assert ab[1..] == a[1..] + b;
      FailedEntriesAppend(a[1..], b);
      if a[0].status == Failure {
        calc {
          FailedEntries(ab);
          [a[0]] + FailedEntries(a[1..] + b);
          [a[0]] + (FailedEntries(a[1..]) + FailedEntries(b));
          ([a[0]] + FailedEntries(a[1..])) + FailedEntries(b);
        }
      } else {
        calc {
          FailedEntries(ab);
          FailedEntries(a[1..] + b);
        }
      }
    }
  }

  /** A script whose entry failed is listed among the failed entries and, with no
      cap, is pending under that entry's change id. */
  lemma FailedEntryIsRetried(scripts: seq<ChangeScript>, applied: seq<ChangeEntry>, i: nat)
    requires i < |scripts|
    requires FindApplied(applied, scripts[i].key).Some?
    requires FindApplied(applied, scripts[i].key).value.status == Failure
    requires ConsistentStatus(FindApplied(applied, scripts[i].key).value)
    ensures FindApplied(applied, scripts[i].key).value in FailedEntries(applied)
    ensures scripts[i].(changeId := FindApplied(applied, scripts[i].key).value.changeId)
            in PendingExecution(None, scripts, applied)
  {
    var e := FindApplied(applied, scripts[i].key).value;
    FindAppliedFirstMatch(applied, scripts[i].key);
    var k :| FirstMatchAt(applied, scripts[i].key, k) && applied[k] == e;
    CandidatesMembers(applied, scripts, Annotate(applied, scripts[i]));
  }
}
